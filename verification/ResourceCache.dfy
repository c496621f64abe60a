/**
 The client's resource cache: reference-counted entries, loads finished by worker threads, one
 memory budget per category and least-recently-used eviction. Every section the original runs
 under its lock is one method here, so a sequence of calls is an interleaving of threads.
 */
module ResourceCache {

  datatype Category = Texture | Mesh | Audio

  type ResourceId = nat
  type Uri = string

  datatype Entry = Entry(cat: Category, uri: Uri, bytes: nat, refCount: nat, lastUsed: nat, committed: bool)

  datatype Preset = Preset(textureMaxSize: nat, textureBudget: nat, meshBudget: nat)

  const AUDIO_BUDGET_BYTES := 64 * 1024 * 1024

  /** One number per category. */
  datatype PerCategory = PerCategory(texture: nat, mesh: nat, audio: nat) {
    function Of(c: Category): nat {
      match c case Texture => texture case Mesh => mesh case Audio => audio
    }

    function With(c: Category, n: nat): (r: PerCategory)
      ensures r.Of(c) == n && forall d :: d != c ==> r.Of(d) == Of(d)
    {
      match c case Texture => this.(texture := n) case Mesh => this.(mesh := n) case Audio => this.(audio := n)
    }
  }

  function BudgetsOf(p: Preset): PerCategory {
    PerCategory(p.textureBudget, p.meshBudget, AUDIO_BUDGET_BYTES)
  }

  /** A worker between its three critical sections: pop a job, read the entry, commit the result. */
  datatype Worker = Idle | Popped(id: ResourceId) | Decoded(id: ResourceId, payload: nat)

  type Entries = map<ResourceId, Entry>

  // -------------------------------------------------------------------------
  // Accounting
  // -------------------------------------------------------------------------

  datatype Measure = InBytes | InEntries

  function Weight(e: Entry, c: Category, m: Measure): nat {
    if e.committed && e.cat == c then (if m == InBytes then e.bytes else 1) else 0
  }

  function WeightAt(es: Entries, id: ResourceId, c: Category, m: Measure): nat {
    if id in es then Weight(es[id], c, m) else 0
  }

  /** Total over the committed entries of a category with ids below `n`. */
  function Sum(es: Entries, n: nat, c: Category, m: Measure): nat {
    if n == 0 then 0 else Sum(es, n - 1, c, m) + WeightAt(es, n - 1, c, m)
  }

  /** Changing one entry changes the total by the difference of its weights. */
  lemma {:induction false} SumChange(es: Entries, es': Entries, n: nat, c: Category, m: Measure, id: ResourceId)
    requires forall k :: k != id ==> (k in es <==> k in es') && (k in es ==> es[k] == es'[k])
    ensures id < n ==> Sum(es, n, c, m) + WeightAt(es', id, c, m) == Sum(es', n, c, m) + WeightAt(es, id, c, m)
    ensures id >= n ==> Sum(es, n, c, m) == Sum(es', n, c, m)
  {
    if n == 0 {
    } else {
      SumChange(es, es', n - 1, c, m, id);
    }
  }

  /** The totals entry by entry: nothing for no entries, and each loaded entry of the category once. */
  lemma SumAddsUp(es: Entries, n: nat, c: Category, id: ResourceId, e: Entry)
    requires id !in es && id < n
    ensures var counts := e.committed && e.cat == c;
            && Sum(es[id := e], n, c, InBytes) == Sum(es, n, c, InBytes) + (if counts then e.bytes else 0)
            && Sum(es[id := e], n, c, InEntries) == Sum(es, n, c, InEntries) + (if counts then 1 else 0)
  {
    hide Sum;
    SumChange(es, es[id := e], n, c, InBytes, id);
    SumChange(es, es[id := e], n, c, InEntries, id);
  }

  lemma {:induction false} NoSum(n: nat, c: Category, m: Measure)
    ensures Sum(map[], n, c, m) == 0
  {
    if n > 0 {
      NoSum(n - 1, c, m);
    }
  }

  // -------------------------------------------------------------------------
  // The invariant, part by part
  // -------------------------------------------------------------------------

  /** Ids come from the counter, and the uri index is the inverse of the entry table. */
  ghost predicate TablesMatch(es: Entries, index: map<Uri, ResourceId>, nextId: ResourceId) {
    && (forall id :: id in es ==> 1 <= id < nextId)
    && (forall id, u :: Names(es, id, u) <==> Indexed(index, u, id))
  }

  predicate Names(es: Entries, id: ResourceId, u: Uri) {
    id in es && es[id].uri == u
  }

  predicate Indexed(index: map<Uri, ResourceId>, u: Uri, id: ResourceId) {
    u in index && index[u] == id
  }

  /** No two entries were last used at the same tick. */
  ghost predicate ClockOk(es: Entries, tick: nat) {
    && (forall id :: id in es ==> es[id].lastUsed <= tick)
    && (forall a, b :: a in es && b in es && a != b ==> es[a].lastUsed != es[b].lastUsed)
  }

  predicate Holds(w: Worker, id: ResourceId) {
    !w.Idle? && w.id == id
  }

  ghost predicate Queued(queue: seq<ResourceId>, workers: seq<Worker>, id: ResourceId) {
    id in queue || Held(workers, id)
  }

  /** An entry is unfinished exactly while its id is queued or in the hands of one worker. */
  ghost predicate JobsOk(es: Entries, queue: seq<ResourceId>, workers: seq<Worker>) {
    && (forall id :: (id in es && !es[id].committed) <==> Queued(queue, workers, id))
    && (forall i, j :: 0 <= i < j < |queue| ==> queue[i] != queue[j])
    && (forall w, v :: 0 <= w < v < |workers| && !workers[w].Idle? && !workers[v].Idle? ==>
              workers[w].id != workers[v].id)
    && (forall w :: 0 <= w < |workers| && !workers[w].Idle? ==> workers[w].id !in queue)
  }

  ghost predicate LedgerOk(es: Entries, nextId: ResourceId, used: PerCategory, count: PerCategory) {
    forall c :: used.Of(c) == Sum(es, nextId, c, InBytes) && count.Of(c) == Sum(es, nextId, c, InEntries)
  }

  // -------------------------------------------------------------------------
  // Eviction
  // -------------------------------------------------------------------------

  predicate Evictable(e: Entry, c: Category) {
    e.cat == c && e.committed && e.refCount == 0
  }

  ghost predicate NothingEvictable(es: Entries, c: Category) {
    forall id :: id in es ==> !Evictable(es[id], c)
  }

  /** `victim` is the evictable entry of the category that was used longest ago. */
  ghost predicate Oldest(es: Entries, c: Category, victim: ResourceId) {
    && victim in es && Evictable(es[victim], c)
    && forall id :: id in es && Evictable(es[id], c) ==> es[victim].lastUsed <= es[id].lastUsed
  }

  /** The entries that are gone were evictable, and older than every evictable entry that stayed. */
  ghost predicate EvictedOldest(before: Entries, after: Entries, c: Category) {
    && after.Keys <= before.Keys
    && (forall id :: id in after ==> after[id] == before[id])
    && (forall v :: v in before && v !in after ==> Evictable(before[v], c))
    && (forall v, k :: v in before && v !in after && k in after && Evictable(before[k], c) ==>
          before[v].lastUsed < before[k].lastUsed)
  }

  /** Without the last eviction the category would still be over its budget. */
  ghost predicate NoneTooMany(before: Entries, after: Entries, n: nat, c: Category, budget: nat) {
    forall v :: NewestVictim(before, after, v) ==> Sum(after, n, c, InBytes) + before[v].bytes > budget
  }

  ghost predicate NewestVictim(before: Entries, after: Entries, v: ResourceId) {
    && v in before && v !in after
    && forall u :: u in before && u !in after ==> before[u].lastUsed <= before[v].lastUsed
  }

  /**
     `after` is `before` without the shortest run of least recently used evictable entries of `c`
     that brings the category within its budget, or without all of them if no run does.
   */
  ghost predicate EvictedTo(before: Entries, after: Entries, n: nat, c: Category, budget: nat) {
    && EvictedOldest(before, after, c)
    && NoneTooMany(before, after, n, c, budget)
    && (Sum(after, n, c, InBytes) <= budget || NothingEvictable(after, c))
  }

  /** Texture, then mesh, then audio. */
  ghost predicate EvictedInTurn(before: Entries, after: Entries, n: nat, budget: PerCategory) {
    exists a, b ::
      && EvictedTo(before, a, n, Texture, budget.texture)
      && EvictedTo(a, b, n, Mesh, budget.mesh)
      && EvictedTo(b, after, n, Audio, budget.audio)
  }

  /** What is in use or still loading is never evicted, and what stays is as it was. */
  lemma InUseStays(before: Entries, after: Entries, n: nat, budget: PerCategory, id: ResourceId)
    requires EvictedInTurn(before, after, n, budget)
    ensures id in before && (before[id].refCount > 0 || !before[id].committed) ==> id in after
    ensures id in after ==> id in before && after[id] == before[id]
  {
    hide EvictedTo;
    var a, b :|
      && EvictedTo(before, a, n, Texture, budget.texture)
      && EvictedTo(a, b, n, Mesh, budget.mesh)
      && EvictedTo(b, after, n, Audio, budget.audio);
    InUseStaysIn(before, a, n, Texture, budget.texture, id);
    InUseStaysIn(a, b, n, Mesh, budget.mesh, id);
    InUseStaysIn(b, after, n, Audio, budget.audio, id);
  }

  lemma InUseStaysIn(before: Entries, after: Entries, n: nat, c: Category, budget: nat, id: ResourceId)
    requires EvictedTo(before, after, n, c, budget)
    ensures id in before && (before[id].refCount > 0 || !before[id].committed) ==> id in after
    ensures id in after ==> id in before && after[id] == before[id]
  {
    hide Sum;
  }

  lemma StillNothing(before: Entries, after: Entries, c: Category, d: Category)
    requires EvictedOldest(before, after, d)
    ensures NothingEvictable(before, c) ==> NothingEvictable(after, c)
  {
  }

  lemma NothingEvicted(es: Entries, n: nat, c: Category, budget: nat)
    ensures EvictedOldest(es, es, c) && NoneTooMany(es, es, n, c, budget)
  {
  }

  lemma OldestIsIn(es: Entries, c: Category, victim: ResourceId)
    requires Oldest(es, c, victim)
    ensures victim in es && |es - {victim}| < |es|
  {
    assert (es - {victim}).Keys == es.Keys - {victim};
  }

  lemma EvictMore(before: Entries, cur: Entries, n: nat, c: Category, budget: nat, victim: ResourceId, tick: nat)
    requires ClockOk(before, tick) && victim < n
    requires EvictedOldest(before, cur, c) && Oldest(cur, c, victim)
    requires Sum(cur, n, c, InBytes) > budget
    ensures EvictedOldest(before, cur - {victim}, c)
    ensures NoneTooMany(before, cur - {victim}, n, c, budget)
  {
    var after := cur - {victim};
    SumChange(cur, after, n, c, InBytes, victim);
    forall v | NewestVictim(before, after, v) ensures v == victim {
      assert before[victim].lastUsed <= before[v].lastUsed;
    }
  }

  lemma {:induction false} SumMonotone(a: Entries, b: Entries, n: nat, c: Category, m: Measure)
    requires a.Keys <= b.Keys && forall id :: id in a ==> a[id] == b[id]
    ensures Sum(a, n, c, m) <= Sum(b, n, c, m)
  {
    if n == 0 {
    } else {
      SumMonotone(a, b, n - 1, c, m);
    }
  }

  lemma FindNewest(before: Entries, after: Entries, victims: set<ResourceId>, some: ResourceId) returns (v: ResourceId)
    requires victims <= before.Keys && some in victims
    ensures v in victims && forall u :: u in victims ==> before[u].lastUsed <= before[v].lastUsed
    decreases victims
  {
    var rest := victims - {some};
    if rest == {} {
      v := some;
    } else {
      var other :| other in rest;
      v := FindNewest(before, after, rest, other);
      if before[v].lastUsed < before[some].lastUsed { v := some; }
    }
  }

  /** Runs of oldest entries are nested: if `a` kept a victim of `b`, it kept all that `b` kept. */
  lemma Nested(before: Entries, a: Entries, b: Entries, c: Category, x: ResourceId)
    requires EvictedOldest(before, a, c) && EvictedOldest(before, b, c)
    requires x in before && x in a && x !in b
    ensures b.Keys <= a.Keys
  {
  }

  lemma OneMoreEntry(a: Entries, b: Entries, n: nat, c: Category, v: ResourceId)
    requires b.Keys <= a.Keys && forall id :: id in b ==> b[id] == a[id]
    requires v in a && v !in b && v < n && Evictable(a[v], c)
    ensures Sum(b, n, c, InBytes) + a[v].bytes <= Sum(a, n, c, InBytes)
  {
    var more := b[v := a[v]];
    SumChange(b, more, n, c, InBytes, v);
    SumMonotone(more, a, n, c, InBytes);
  }

  /** One of two eviction results cannot contain a victim the other one kept. */
  lemma NoExtraVictim(before: Entries, a: Entries, b: Entries, n: nat, c: Category, budget: nat, x: ResourceId,
                      tick: nat)
    requires ClockOk(before, tick) && forall id :: id in before ==> id < n
    requires EvictedTo(before, a, n, c, budget) && EvictedTo(before, b, n, c, budget)
    ensures !(x in a && x !in b)
  {
    if x in a && x !in b {
      Nested(before, a, b, c, x);
      var v := FindNewest(before, b, before.Keys - b.Keys, x);
      assert NewestVictim(before, b, v);
      OneMoreEntry(a, b, n, c, v);
    }
  }

  /** The eviction result is determined by the entries and the budget. */
  lemma EvictionIsUnique(before: Entries, a: Entries, b: Entries, n: nat, c: Category, budget: nat, tick: nat)
    requires ClockOk(before, tick) && forall id :: id in before ==> id < n
    requires EvictedTo(before, a, n, c, budget) && EvictedTo(before, b, n, c, budget)
    ensures a == b
  {
    forall x ensures x in a <==> x in b {
      NoExtraVictim(before, a, b, n, c, budget, x, tick);
      NoExtraVictim(before, b, a, n, c, budget, x, tick);
    }
  }

  // -------------------------------------------------------------------------
  // How the parts of the invariant survive the four kinds of table change
  // -------------------------------------------------------------------------

  ghost predicate OnlyAt(es: Entries, es': Entries, id: ResourceId) {
    forall k :: k != id ==> (k in es <==> k in es') && (k in es ==> es[k] == es'[k])
  }

  lemma LedgerChange(es: Entries, es': Entries, n: ResourceId, id: ResourceId,
                     used: PerCategory, count: PerCategory, used': PerCategory, count': PerCategory)
    requires LedgerOk(es, n, used, count) && OnlyAt(es, es', id) && id < n
    requires forall c :: used'.Of(c) + WeightAt(es, id, c, InBytes) == used.Of(c) + WeightAt(es', id, c, InBytes)
    requires forall c :: count'.Of(c) + WeightAt(es, id, c, InEntries) == count.Of(c) + WeightAt(es', id, c, InEntries)
    ensures LedgerOk(es', n, used', count')
  {
    forall c ensures used'.Of(c) == Sum(es', n, c, InBytes) && count'.Of(c) == Sum(es', n, c, InEntries) {
      SumChange(es, es', n, c, InBytes, id);
      SumChange(es, es', n, c, InEntries, id);
    }
  }

  /** A committed entry is part of its category's totals. */
  lemma InTotals(es: Entries, n: ResourceId, id: ResourceId, m: Measure)
    requires id in es && id < n && es[id].committed
    ensures Weight(es[id], es[id].cat, m) <= Sum(es, n, es[id].cat, m)
  {
    SumChange(es, es - {id}, n, es[id].cat, m, id);
  }

  lemma LedgerNewId(es: Entries, n: ResourceId, e: Entry, used: PerCategory, count: PerCategory)
    requires LedgerOk(es, n, used, count) && n !in es && !e.committed
    ensures LedgerOk(es[n := e], n + 1, used, count)
  {
    forall c
      ensures used.Of(c) == Sum(es[n := e], n + 1, c, InBytes) && count.Of(c) == Sum(es[n := e], n + 1, c, InEntries)
    {
      SumChange(es, es[n := e], n, c, InBytes, n);
      SumChange(es, es[n := e], n, c, InEntries, n);
    }
  }

  /** The committed entries are untouched: the jobs stay what they are. */
  lemma JobsUnaffected(es: Entries, es': Entries, queue: seq<ResourceId>, workers: seq<Worker>)
    requires JobsOk(es, queue, workers)
    requires forall id :: (id in es && !es[id].committed) <==> (id in es' && !es'[id].committed)
    ensures JobsOk(es', queue, workers)
  {
  }

  lemma JobsNewId(es: Entries, id: ResourceId, e: Entry, queue: seq<ResourceId>, workers: seq<Worker>)
    requires JobsOk(es, queue, workers) && id !in es && !e.committed
    ensures JobsOk(es[id := e], queue + [id], workers)
  {
    assert !Queued(queue, workers, id);
    forall k ensures Queued(queue + [id], workers, k) <==> k == id || Queued(queue, workers, k) {
    }
  }

  ghost predicate Held(workers: seq<Worker>, id: ResourceId) {
    exists w :: 0 <= w < |workers| && Holds(workers[w], id)
  }

  /** Changing worker `w` only concerns the ids it held or holds. */
  lemma StillHeld(workers: seq<Worker>, after: seq<Worker>, w: nat, id: ResourceId)
    requires w < |workers| == |after| && forall v :: 0 <= v < |workers| && v != w ==> after[v] == workers[v]
    ensures Held(after, id) || Holds(workers[w], id) <==> Held(workers, id) || Holds(after[w], id)
  {
    if Held(workers, id) {
      var v :| 0 <= v < |workers| && Holds(workers[v], id);
      assert v == w || Holds(after[v], id);
    }
    if Held(after, id) {
      var v :| 0 <= v < |after| && Holds(after[v], id);
      assert v == w || Holds(workers[v], id);
    }
  }

  /** The front job moves from the queue into the hands of an idle worker. */
  lemma JobsPop(es: Entries, queue: seq<ResourceId>, workers: seq<Worker>, w: nat)
    requires JobsOk(es, queue, workers) && queue != [] && w < |workers| && workers[w].Idle?
    ensures JobsOk(es, queue[1..], workers[w := Popped(queue[0])])
  {
    var after := workers[w := Popped(queue[0])];
    assert queue[0] in queue && queue[0] !in queue[1..];
    forall k ensures Queued(queue, workers, k) <==> Queued(queue[1..], after, k) {
      assert Holds(after[w], queue[0]);
      assert k in queue <==> k == queue[0] || k in queue[1..];
      StillHeld(workers, after, w, k);
    }
  }

  lemma JobsRelabel(es: Entries, queue: seq<ResourceId>, workers: seq<Worker>, w: nat, payload: nat)
    requires JobsOk(es, queue, workers) && w < |workers| && workers[w].Popped?
    ensures JobsOk(es, queue, workers[w := Decoded(workers[w].id, payload)])
  {
    var after := workers[w := Decoded(workers[w].id, payload)];
    assert Holds(workers[w], workers[w].id) && Holds(after[w], workers[w].id);
    forall k ensures Queued(queue, workers, k) <==> Queued(queue, after, k) {
      StillHeld(workers, after, w, k);
    }
  }

  /** The worker's entry becomes committed and the worker idle. */
  lemma JobsDone(es: Entries, es': Entries, queue: seq<ResourceId>, workers: seq<Worker>, w: nat)
    requires JobsOk(es, queue, workers) && w < |workers| && !workers[w].Idle?
    requires OnlyAt(es, es', workers[w].id) && workers[w].id in es' && es'[workers[w].id].committed
    ensures JobsOk(es', queue, workers[w := Idle])
  {
    var after := workers[w := Idle];
    var id := workers[w].id;
    forall k ensures Queued(queue, after, k) <==> k != id && Queued(queue, workers, k) {
      StillHeld(workers, after, w, k);
    }
  }

  /** Every issued id was committed exactly once, or is the id of an entry still being loaded. */
  ghost predicate CommitsOk(es: Entries, nextId: ResourceId, commits: seq<ResourceId>) {
    && (forall i, j :: 0 <= i < j < |commits| ==> commits[i] != commits[j])
    && (forall id :: id in commits <==> 1 <= id < nextId && !(id in es && !es[id].committed))
  }

  /** The books over ids: tables, clock, commits, and live entries + evictions = ids issued. */
  ghost predicate IdsOk(es: Entries, index: map<Uri, ResourceId>, nextId: ResourceId, tick: nat,
                        commits: seq<ResourceId>, evictions: nat) {
    && nextId >= 1
    && TablesMatch(es, index, nextId)
    && ClockOk(es, tick)
    && CommitsOk(es, nextId, commits)
    && |es| + evictions == nextId - 1
  }

  lemma IdsTouch(es: Entries, index: map<Uri, ResourceId>, nextId: ResourceId, tick: nat,
                 commits: seq<ResourceId>, evictions: nat, id: ResourceId, refCount: nat)
    requires IdsOk(es, index, nextId, tick, commits, evictions) && id in es
    ensures IdsOk(es[id := es[id].(refCount := refCount, lastUsed := tick + 1)], index, nextId, tick + 1, commits,
                  evictions)
  {
    var e := es[id].(refCount := refCount, lastUsed := tick + 1);
    SameUri(es, index, nextId, id, e);
    ClockTick(es, tick, id, e);
    SameCommits(es, nextId, commits, id, e);
  }

  lemma SameUri(es: Entries, index: map<Uri, ResourceId>, n: ResourceId, id: ResourceId, e: Entry)
    requires TablesMatch(es, index, n) && id in es && e.uri == es[id].uri
    ensures TablesMatch(es[id := e], index, n) && |es[id := e]| == |es|
  {
    assert es[id := e].Keys == es.Keys;
    var es' := es[id := e];
    forall k, u ensures Names(es', k, u) <==> Indexed(index, u, k) {
      assert Names(es, k, u) <==> Indexed(index, u, k);
    }
  }

  lemma ClockTick(es: Entries, tick: nat, id: ResourceId, e: Entry)
    requires ClockOk(es, tick) && id in es && (e.lastUsed == tick + 1 || e.lastUsed == es[id].lastUsed)
    ensures ClockOk(es[id := e], tick + 1) && (e.lastUsed == es[id].lastUsed ==> ClockOk(es[id := e], tick))
  {
  }

  lemma SameCommits(es: Entries, n: ResourceId, commits: seq<ResourceId>, id: ResourceId, e: Entry)
    requires CommitsOk(es, n, commits) && id in es && e.committed == es[id].committed
    ensures CommitsOk(es[id := e], n, commits)
  {
  }

  lemma TablesNew(es: Entries, index: map<Uri, ResourceId>, n: ResourceId, e: Entry)
    requires n >= 1 && TablesMatch(es, index, n) && e.uri !in index
    ensures n !in es && |es[n := e]| == |es| + 1
    ensures TablesMatch(es[n := e], index[e.uri := n], n + 1)
  {
    assert n !in es;
    assert es[n := e].Keys == es.Keys + {n};
    var es', index' := es[n := e], index[e.uri := n];
    forall id, u ensures Names(es', id, u) <==> Indexed(index', u, id) {
      assert Names(es, id, u) <==> Indexed(index, u, id);
    }
  }

  lemma CommitsNew(es: Entries, n: ResourceId, commits: seq<ResourceId>, e: Entry)
    requires CommitsOk(es, n, commits) && n !in es && n >= 1 && !e.committed
    ensures CommitsOk(es[n := e], n + 1, commits)
  {
  }

  lemma IdsNew(es: Entries, index: map<Uri, ResourceId>, n: ResourceId, tick: nat,
               commits: seq<ResourceId>, evictions: nat, e: Entry)
    requires IdsOk(es, index, n, tick, commits, evictions)
    requires e.uri !in index && !e.committed && e.lastUsed == tick + 1
    ensures n !in es
    ensures IdsOk(es[n := e], index[e.uri := n], n + 1, tick + 1, commits, evictions)
  {
    TablesNew(es, index, n, e);
    CommitsNew(es, n, commits, e);
  }

  lemma IdsGone(es: Entries, index: map<Uri, ResourceId>, n: ResourceId, tick: nat,
                commits: seq<ResourceId>, evictions: nat, id: ResourceId)
    requires IdsOk(es, index, n, tick, commits, evictions) && id in es && es[id].committed
    ensures IdsOk(es - {id}, index - {es[id].uri}, n, tick, commits, evictions + 1)
  {
    assert (es - {id}).Keys == es.Keys - {id};
    assert Names(es, id, es[id].uri);
    var es', index' := es - {id}, index - {es[id].uri};
    forall k, u ensures Names(es', k, u) <==> Indexed(index', u, k) {
      assert Names(es, k, u) <==> Indexed(index, u, k);
    }
  }

  lemma IdsCommitted(es: Entries, index: map<Uri, ResourceId>, n: ResourceId, tick: nat,
                     commits: seq<ResourceId>, evictions: nat, id: ResourceId, payload: nat)
    requires IdsOk(es, index, n, tick, commits, evictions) && id in es && !es[id].committed
    ensures IdsOk(es[id := es[id].(committed := true, bytes := payload)], index, n, tick, commits + [id], evictions)
  {
    var e := es[id].(committed := true, bytes := payload);
    SameUri(es, index, n, id, e);
    ClockTick(es, tick, id, e);
    OneMoreCommit(es, n, commits, id, e);
  }

  lemma OneMoreCommit(es: Entries, n: ResourceId, commits: seq<ResourceId>, id: ResourceId, e: Entry)
    requires CommitsOk(es, n, commits) && id in es && 1 <= id < n && !es[id].committed && e.committed
    ensures CommitsOk(es[id := e], n, commits + [id])
  {
    assert id !in commits;
    assert forall k :: k in commits + [id] <==> k in commits || k == id;
  }

  /** What every critical section keeps, apart from the request counters and the budgets. */
  ghost predicate BooksOf(es: Entries, index: map<Uri, ResourceId>, nextId: ResourceId, tick: nat,
                          commits: seq<ResourceId>, evictions: nat, queue: seq<ResourceId>, workers: seq<Worker>,
                          used: PerCategory, count: PerCategory) {
    && IdsOk(es, index, nextId, tick, commits, evictions)
    && JobsOk(es, queue, workers)
    && LedgerOk(es, nextId, used, count)
  }

  lemma BooksTouch(es: Entries, index: map<Uri, ResourceId>, n: ResourceId, tick: nat, commits: seq<ResourceId>,
                   evictions: nat, queue: seq<ResourceId>, workers: seq<Worker>, used: PerCategory, count: PerCategory,
                   id: ResourceId, refCount: nat)
    requires BooksOf(es, index, n, tick, commits, evictions, queue, workers, used, count) && id in es
    ensures var es' := es[id := es[id].(refCount := refCount, lastUsed := tick + 1)];
            BooksOf(es', index, n, tick + 1, commits, evictions, queue, workers, used, count)
  {
    var es' := es[id := es[id].(refCount := refCount, lastUsed := tick + 1)];
    IdsTouch(es, index, n, tick, commits, evictions, id, refCount);
    JobsUnaffected(es, es', queue, workers);
    LedgerChange(es, es', n, id, used, count, used, count);
  }

  lemma BooksInsert(es: Entries, index: map<Uri, ResourceId>, n: ResourceId, tick: nat, commits: seq<ResourceId>,
                    evictions: nat, queue: seq<ResourceId>, workers: seq<Worker>, used: PerCategory, count: PerCategory,
                    e: Entry)
    requires BooksOf(es, index, n, tick, commits, evictions, queue, workers, used, count)
    requires e.uri !in index && !e.committed && e.lastUsed == tick + 1
    ensures n !in es
    ensures BooksOf(es[n := e], index[e.uri := n], n + 1, tick + 1, commits, evictions, queue + [n], workers, used,
                    count)
  {
    IdsNew(es, index, n, tick, commits, evictions, e);
    JobsNewId(es, n, e, queue, workers);
    LedgerNewId(es, n, e, used, count);
  }

  function UsedWithout(e: Entry, used: PerCategory): PerCategory
    requires e.bytes <= used.Of(e.cat)
  {
    used.With(e.cat, used.Of(e.cat) - e.bytes)
  }

  function CountWithout(e: Entry, count: PerCategory): PerCategory {
    if count.Of(e.cat) > 0 then count.With(e.cat, count.Of(e.cat) - 1) else count
  }

  /** Evicting a committed entry: its bytes and its place in the count were really there. */
  lemma BooksEvict(es: Entries, index: map<Uri, ResourceId>, n: ResourceId, tick: nat, commits: seq<ResourceId>,
                   evictions: nat, queue: seq<ResourceId>, workers: seq<Worker>, used: PerCategory, count: PerCategory,
                   id: ResourceId)
    requires BooksOf(es, index, n, tick, commits, evictions, queue, workers, used, count)
    requires id in es && es[id].committed
    ensures es[id].bytes <= used.Of(es[id].cat) && count.Of(es[id].cat) > 0
    ensures BooksOf(es - {id}, index - {es[id].uri}, n, tick, commits, evictions + 1, queue, workers,
                    UsedWithout(es[id], used), CountWithout(es[id], count))
  {
    InTotals(es, n, id, InBytes);
    InTotals(es, n, id, InEntries);
    IdsGone(es, index, n, tick, commits, evictions, id);
    JobsUnaffected(es, es - {id}, queue, workers);
    LedgerChange(es, es - {id}, n, id, used, count, UsedWithout(es[id], used), CountWithout(es[id], count));
  }

  lemma BooksCommit(es: Entries, index: map<Uri, ResourceId>, n: ResourceId, tick: nat, commits: seq<ResourceId>,
                    evictions: nat, queue: seq<ResourceId>, workers: seq<Worker>, used: PerCategory, count: PerCategory,
                    w: nat)
    requires BooksOf(es, index, n, tick, commits, evictions, queue, workers, used, count)
    requires w < |workers| && workers[w].Decoded?
    ensures var id := workers[w].id;
            && id in es && !es[id].committed && id !in commits
            && var e := es[id].(committed := true, bytes := workers[w].payload);
               BooksOf(es[id := e], index, n, tick, commits + [id], evictions, queue, workers[w := Idle],
                       used.With(e.cat, used.Of(e.cat) + e.bytes), count.With(e.cat, count.Of(e.cat) + 1))
  {
    var id, payload := workers[w].id, workers[w].payload;
    assert Holds(workers[w], id);
    assert Queued(queue, workers, id);
    var e := es[id].(committed := true, bytes := payload);
    IdsCommitted(es, index, n, tick, commits, evictions, id, payload);
    JobsDone(es, es[id := e], queue, workers, w);
    LedgerChange(es, es[id := e], n, id, used, count,
                 used.With(e.cat, used.Of(e.cat) + e.bytes), count.With(e.cat, count.Of(e.cat) + 1));
  }

  /** Is every finished entry of the category referenced? */
  ghost predicate AllInUse(es: Entries, c: Category) {
    forall id :: id in es && es[id].cat == c && es[id].committed ==> es[id].refCount > 0
  }

  ghost predicate BudgetOk(es: Entries, used: PerCategory, budget: PerCategory) {
    forall c :: used.Of(c) <= budget.Of(c) || NothingEvictable(es, c)
  }

  /** An entry that is referenced or unfinished afterwards adds nothing to evict. */
  lemma BudgetStays(es: Entries, id: ResourceId, e: Entry, used: PerCategory, budget: PerCategory)
    requires BudgetOk(es, used, budget) && (e.refCount > 0 || !e.committed)
    ensures BudgetOk(es[id := e], used, budget)
  {
  }

  // -------------------------------------------------------------------------
  // The manager
  // -------------------------------------------------------------------------

  datatype LoadResult = Handle(id: ResourceId) | NotInitialized

  datatype UnloadResult = Released | NotFound

  class ResourceManager {
    const sizeOf: (Category, Uri, Preset) -> nat     // decoded size of a resource
    var preset: Preset
    var inited: bool
    var nextId: ResourceId
    var tick: nat
    var entries: Entries
    var uriIndex: map<Uri, ResourceId>
    var budget: PerCategory
    var used: PerCategory
    var count: PerCategory
    var totalRequests: nat
    var cacheHits: nat
    var lruEvictions: nat
    var jobQueue: seq<ResourceId>
    var workers: seq<Worker>
    ghost var commits: seq<ResourceId>               // ids in the order they were committed

    ghost predicate Books()
      reads this`nextId, this`tick, this`entries, this`uriIndex, this`used, this`count, this`lruEvictions,
            this`jobQueue, this`workers, this`commits
    {
      BooksOf(entries, uriIndex, nextId, tick, commits, lruEvictions, jobQueue, workers, used, count)
    }

    ghost predicate Valid()
      reads this
    {
      && Books()
      && totalRequests == cacheHits + (nextId - 1)
      && (inited ==> budget == BudgetsOf(preset))
      && (!inited ==> nextId == 1)
    }

    /** Every category is within its budget or has nothing that could be evicted. */
    ghost predicate WithinBudget()
      reads this`used, this`budget, this`entries
    {
      BudgetOk(entries, used, budget)
    }

    constructor (sizeOf: (Category, Uri, Preset) -> nat, workerCount: nat)
      ensures Valid() && WithinBudget() && !inited && |workers| == workerCount
    {
      this.sizeOf := sizeOf;
      preset, inited := Preset(0, 0, 0), false;
      nextId, tick := 1, 0;
      entries, uriIndex := map[], map[];
      budget, used, count := PerCategory(0, 0, 0), PerCategory(0, 0, 0), PerCategory(0, 0, 0);
      totalRequests, cacheHits, lruEvictions := 0, 0, 0;
      jobQueue := [];
      workers := seq(workerCount, _ => Idle);
      commits := [];
      new;
      forall c ensures Sum(entries, 1, c, InBytes) == 0 && Sum(entries, 1, c, InEntries) == 0 {
        assert Sum(entries, 0, c, InBytes) == 0 && Sum(entries, 0, c, InEntries) == 0;
      }
    }

    /** Sets the budgets; unlike SetQuality it evicts nothing. */
    method Init(p: Preset)
      requires Valid()
      modifies this`preset, this`inited, this`budget
      ensures Valid() && inited && preset == p
      ensures budget.texture == p.textureBudget && budget.mesh == p.meshBudget && budget.audio == 67_108_864
      ensures !old(inited) ==> WithinBudget()
    {
      preset, inited := p, true;
      budget := BudgetsOf(preset);
    }

    /** A fresh tick and a new reference count for one entry. */
    method Touch(id: ResourceId, refCount: nat)
      requires Books() && id in entries
      modifies this`tick, this`entries
      ensures Books() && tick == old(tick) + 1
      ensures entries == old(entries)[id := old(entries)[id].(refCount := refCount, lastUsed := tick)]
    {
      hide BooksOf;
      var e := entries[id].(refCount := refCount, lastUsed := tick + 1);
      BooksTouch(entries, uriIndex, nextId, tick, commits, lruEvictions, jobQueue, workers, used, count, id, refCount);
      entries, tick := entries[id := e], tick + 1;
    }

    /** A new entry under the next id, with its load queued. */
    method Insert(uri: Uri, cat: Category) returns (id: ResourceId)
      requires Books() && uri !in uriIndex
      modifies this`nextId, this`tick, this`entries, this`uriIndex, this`jobQueue
      ensures Books() && id == old(nextId) && nextId == id + 1 && tick == old(tick) + 1
      ensures uriIndex == old(uriIndex)[uri := id] && jobQueue == old(jobQueue) + [id]
      ensures entries == old(entries)[id := Entry(cat, uri, 0, 1, tick, false)]
    {
      hide BooksOf;
      id := nextId;
      var e := Entry(cat, uri, 0, 1, tick + 1, false);
      BooksInsert(entries, uriIndex, nextId, tick, commits, lruEvictions, jobQueue, workers, used, count, e);
      nextId, tick := nextId + 1, tick + 1;
      entries := entries[id := e];
      uriIndex := uriIndex[uri := id];
      jobQueue := jobQueue + [id];
    }

    /** The id registered for a uri, if its entry exists. */
    method Find(uri: Uri) returns (found: bool, id: ResourceId)
      requires Books()
      ensures found <==> uri in uriIndex
      ensures found ==> id == uriIndex[uri] && id in entries && entries[id].uri == uri
    {
      if uri in uriIndex {
        id := uriIndex[uri];
        assert Indexed(uriIndex, uri, id);
        assert Names(entries, id, uri);
        if id in entries {
          return true, id;
        }
      }
      return false, 0;
    }

    /** A uri that is known gains a reference; a new uri gets the next id and a queued load. */
    method LoadAsync(uri: Uri, cat: Category) returns (r: LoadResult)
      requires Valid()
      modifies this`totalRequests, this`cacheHits, this`nextId, this`tick, this`entries, this`uriIndex, this`jobQueue
      ensures Valid()
      ensures old(WithinBudget()) ==> WithinBudget()
      ensures r.NotInitialized? <==> !inited
      ensures !inited ==> entries == old(entries) && totalRequests == old(totalRequests)
      ensures inited ==> tick == old(tick) + 1 && totalRequests == old(totalRequests) + 1
      ensures cacheHits == old(cacheHits) + if inited && uri in old(uriIndex) then 1 else 0
      ensures inited && uri in old(uriIndex) ==>
        && r == Handle(old(uriIndex)[uri]) && r.id in old(entries) && uriIndex == old(uriIndex) && nextId == old(nextId)
        && jobQueue == old(jobQueue)
        && var e := old(entries)[r.id];
           entries == old(entries)[r.id := e.(refCount := e.refCount + 1, lastUsed := tick)]
      ensures inited && uri !in old(uriIndex) ==>
        && r == Handle(old(nextId)) && nextId == r.id + 1
        && uriIndex == old(uriIndex)[uri := r.id] && jobQueue == old(jobQueue) + [r.id]
        && entries == old(entries)[r.id := Entry(cat, uri, 0, 1, tick, false)]
    {
      hide BooksOf;
      if !inited {
        return NotInitialized;
      }
      totalRequests := totalRequests + 1;
      var found, id := Find(uri);
      if found {
        cacheHits := cacheHits + 1;
        Touch(id, entries[id].refCount + 1);
      } else {
        id := Insert(uri, cat);
      }
      if old(WithinBudget()) {
        BudgetStays(old(entries), id, entries[id], used, budget);
      }
      return Handle(id);
    }

    /** Removes the least recently used evictable entry of a category, if there is one. */
    method EvictOne(c: Category) returns (evicted: bool)
      requires Books()
      modifies this`entries, this`uriIndex, this`used, this`count, this`lruEvictions
      ensures Books()
      ensures evicted <==> !old(NothingEvictable(entries, c))
      ensures !evicted ==> entries == old(entries) && used == old(used) && count == old(count) &&
                           uriIndex == old(uriIndex) && lruEvictions == old(lruEvictions)
      ensures evicted ==> lruEvictions == old(lruEvictions) + 1
      ensures evicted ==> exists v :: Oldest(old(entries), c, v) && entries == old(entries) - {v}
      ensures forall d :: d != c ==> used.Of(d) == old(used.Of(d)) && count.Of(d) == old(count.Of(d))
    {
      hide BooksOf;
      var victim := FindVictim(c);
      if victim == 0 {
        return false;
      }
      var e := entries[victim];
      BooksEvict(entries, uriIndex, nextId, tick, commits, lruEvictions, jobQueue, workers, used, count, victim);
      used, count := UsedWithout(e, used), CountWithout(e, count);
      uriIndex := uriIndex - {e.uri};
      entries := entries - {victim};
      lruEvictions := lruEvictions + 1;
      return true;
    }

    /** One pass over the entry table in whatever order it yields them; 0 is no entry's id. */
    method FindVictim(c: Category) returns (victim: ResourceId)
      requires Books()
      ensures victim == 0 ==> NothingEvictable(entries, c)
      ensures victim != 0 ==> Oldest(entries, c, victim)
    {
      victim := 0;
      var todo := entries.Keys;
      while todo != {}
        invariant todo <= entries.Keys
        invariant victim == 0 ==> forall id :: id in entries && id !in todo ==> !Evictable(entries[id], c)
        invariant victim != 0 ==> victim in entries && Evictable(entries[victim], c)
        invariant victim != 0 ==> forall id :: id in entries && id !in todo && Evictable(entries[id], c) ==>
                    entries[victim].lastUsed <= entries[id].lastUsed
      {
        var id :| id in todo;
        todo := todo - {id};
        var e := entries[id];
        if Evictable(e, c) && (victim == 0 || e.lastUsed < entries[victim].lastUsed) {
          victim := id;
        }
      }
    }

    /** Evicts within one category until it fits its budget or nothing is left to evict. */
    method EvictCategory(c: Category)
      requires Books()
      modifies this`entries, this`uriIndex, this`used, this`count, this`lruEvictions
      ensures Books()
      ensures EvictedTo(old(entries), entries, nextId, c, budget.Of(c))
      ensures used.Of(c) <= budget.Of(c) || NothingEvictable(entries, c)
      ensures forall d :: d != c ==> used.Of(d) == old(used.Of(d)) && count.Of(d) == old(count.Of(d))
    {
      hide BooksOf, Oldest, NothingEvictable, EvictedOldest, NoneTooMany, ClockOk, Sum;
      NothingEvicted(entries, nextId, c, budget.Of(c));
      UsedIsSum(c);
      while used.Of(c) > budget.Of(c)
        invariant Books()
        invariant EvictedOldest(old(entries), entries, c)
        invariant NoneTooMany(old(entries), entries, nextId, c, budget.Of(c))
        invariant forall d :: d != c ==> used.Of(d) == old(used.Of(d)) && count.Of(d) == old(count.Of(d))
        decreases |entries|
      {
        ghost var cur := entries;
        UsedIsSum(c);
        var evicted := EvictOne(c);
        if !evicted {
          break;
        }
        ghost var v :| Oldest(cur, c, v) && entries == cur - {v};
        OldestIsIn(cur, c, v);
        EvictMore(old(entries), cur, nextId, c, budget.Of(c), v, tick);
      }
      UsedIsSum(c);
    }

    lemma UsedIsSum(c: Category)
      requires Books()
      ensures used.Of(c) == Sum(entries, nextId, c, InBytes)
      ensures ClockOk(entries, tick) && forall id :: id in entries ==> id < nextId
    {
    }

    /** Texture, mesh, audio, in this order. */
    method EvictToBudget()
      requires Books()
      modifies this`entries, this`uriIndex, this`used, this`count, this`lruEvictions
      ensures Books() && WithinBudget()
      ensures EvictedInTurn(old(entries), entries, nextId, budget)
    {
      hide BooksOf;
      EvictCategory(Texture);
      ghost var a := entries;
      EvictCategory(Mesh);
      ghost var b := entries;
      EvictCategory(Audio);
      StillNothing(a, b, Texture, Mesh);
      StillNothing(b, entries, Texture, Audio);
      StillNothing(b, entries, Mesh, Audio);
      forall c ensures used.Of(c) <= budget.Of(c) || NothingEvictable(entries, c) {
        assert c == Texture || c == Mesh || c == Audio;
      }
    }

    /** Gives one reference back; the freed entry becomes the youngest candidate, then budgets are enforced. */
    method Unload(id: ResourceId) returns (r: UnloadResult)
      requires Valid()
      modifies this`tick, this`entries, this`uriIndex, this`used, this`count, this`lruEvictions
      ensures Valid() && (old(WithinBudget()) ==> WithinBudget())
      ensures r == if id == 0 || id in old(entries) then Released else NotFound
      ensures id !in old(entries) || old(entries)[id].refCount == 0 ==> entries == old(entries)
      ensures id in old(entries) && old(entries)[id].refCount > 0 ==>
        var e := old(entries)[id];
        var released := old(entries)[id := e.(refCount := e.refCount - 1, lastUsed := tick)];
        && tick == old(tick) + 1
        && EvictedInTurn(released, entries, nextId, budget)
    {
      hide BooksOf, EvictedInTurn, NothingEvictable, OnlyAt;
      if id == 0 {
        NoEntryZero();
        return Released;
      }
      if id !in entries {
        return NotFound;
      }
      if entries[id].refCount == 0 {
        return Released;
      }
      Touch(id, entries[id].refCount - 1);
      EvictToBudget();
      return Released;
    }

    lemma NoEntryZero()
      requires Books()
      ensures 0 !in entries
    {
    }

    /** Switching the preset shrinks every category to its new budget at once. */
    method SetQuality(p: Preset)
      requires Valid()
      modifies this`preset, this`budget, this`entries, this`uriIndex, this`used, this`count, this`lruEvictions
      ensures Valid() && WithinBudget() && preset == p
      ensures EvictedInTurn(old(entries), entries, nextId, BudgetsOf(p))
      ensures budget.texture == p.textureBudget && budget.mesh == p.meshBudget && budget.audio == 67_108_864
      ensures used.texture <= p.textureBudget || AllInUse(entries, Texture)
      ensures used.mesh <= p.meshBudget || AllInUse(entries, Mesh)
      ensures used.audio <= 67_108_864 || AllInUse(entries, Audio)
    {
      hide BooksOf, EvictedInTurn;
      preset := p;
      budget := BudgetsOf(preset);
      EvictToBudget();
      assert used.Of(Texture) == used.texture && used.Of(Mesh) == used.mesh && used.Of(Audio) == used.audio;
    }

    /** First section of a worker: take the front job. */
    method WorkerPop(w: nat)
      requires Valid() && w < |workers| && workers[w].Idle?
      modifies this`jobQueue, this`workers
      ensures Valid()
      ensures old(jobQueue) == [] ==> jobQueue == [] && workers == old(workers)
      ensures old(jobQueue) != [] ==>
        jobQueue == old(jobQueue)[1..] && workers == old(workers)[w := Popped(old(jobQueue)[0])]
    {
      if jobQueue == [] {
        return;
      }
      JobsPop(entries, jobQueue, workers, w);
      workers := workers[w := Popped(jobQueue[0])];
      jobQueue := jobQueue[1..];
    }

    /** Second section: read the entry and work out its decoded size under the current preset. */
    method WorkerRead(w: nat)
      requires Valid() && w < |workers| && workers[w].Popped?
      modifies this`workers
      ensures Valid()
      ensures |workers| == |old(workers)|
      ensures workers[w].Decoded? && workers == old(workers)[w := workers[w]] && workers[w].id == old(workers)[w].id
      ensures workers[w].id in entries &&
              workers[w].payload == sizeOf(entries[workers[w].id].cat, entries[workers[w].id].uri, preset)
    {
      var id := workers[w].id;
      HeldIsLoading(w);
      var e := entries[id];
      JobsRelabel(entries, jobQueue, workers, w, sizeOf(e.cat, e.uri, preset));
      workers := workers[w := Decoded(id, sizeOf(e.cat, e.uri, preset))];
    }

    lemma HeldIsLoading(w: nat)
      requires Books() && w < |workers| && !workers[w].Idle?
      ensures workers[w].id in entries && !entries[workers[w].id].committed
    {
      assert Holds(workers[w], workers[w].id);
      assert Queued(jobQueue, workers, workers[w].id);
    }

    /** Third section: the entry is committed, for the first and only time, then budgets are enforced. */
    method WorkerCommit(w: nat)
      requires Valid() && w < |workers| && workers[w].Decoded?
      modifies this`workers, this`commits, this`entries, this`uriIndex, this`used, this`count, this`lruEvictions
      ensures Valid() && WithinBudget()
      ensures old(workers)[w].id !in old(commits) && commits == old(commits) + [old(workers)[w].id]
      ensures workers == old(workers)[w := Idle]
      ensures var id := old(workers)[w].id;
        && id in old(entries)
        && var committed := old(entries)[id := old(entries)[id].(committed := true, bytes := old(workers)[w].payload)];
        EvictedInTurn(committed, entries, nextId, budget)
    {
      hide BooksOf;
      var id, payload := workers[w].id, workers[w].payload;
      BooksCommit(entries, uriIndex, nextId, tick, commits, lruEvictions, jobQueue, workers, used, count, w);
      if id in entries && !entries[id].committed {
        var e := entries[id].(committed := true, bytes := payload);
        entries := entries[id := e];
        used := used.With(e.cat, used.Of(e.cat) + e.bytes);
        count := count.With(e.cat, count.Of(e.cat) + 1);
        workers := workers[w := Idle];
        commits := commits + [id];
        EvictToBudget();
      }
    }
  }
}
