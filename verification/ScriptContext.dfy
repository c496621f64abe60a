/**
 The hot-change protocol of the script host. While any script runs, loading and unloading is only
 queued; the queue takes effect at a safe point. A run in which a limit was hit takes back what it
 queued, however it ends. Every Lua registry reference has exactly one owner.

 What a chunk does while it runs is arbitrary: it is given as a tree of calls back into the host,
 so a statement for all scripts is a statement for all behaviours, at every nesting depth.
 */
module Scripting {
  import opened Basics

  type ScriptId = nat
  type Ref = nat

  const INVALID_SCRIPT_ID: ScriptId := 0

  /**
   A chunk or function body: whether there is anything to run (the source compiles, or the function
   exists), what it calls back, whether it ends normally, and whether an execution limit was hit on
   the way. The last two are independent: a script may catch the error that a limit
   raises and end normally, and it may fail without any limit. Running out of memory is a failure
   that does not count as a limit here, as in the source.
   */
  datatype Script = Script(compiles: bool, acts: seq<Act>, finished: bool, limitHit: bool)

  datatype Act =
    | LoadAct(name: string, script: Script)
    | ReloadAct(name: string, script: Script)
    | UnloadAct(id: ScriptId)
    | CallAct(id: ScriptId, body: Script)
    | ApplyAct
    | SubscribeAct

  function ScriptSize(s: Script): nat {
    1 + ActsSize(s.acts)
  }

  function ActsSize(acts: seq<Act>): nat {
    if acts == [] then 0 else ActSize(acts[0]) + ActsSize(acts[1..])
  }

  function ActSize(a: Act): nat {
    match a
    case LoadAct(_, s) => 1 + ScriptSize(s)
    case ReloadAct(_, s) => 1 + ScriptSize(s)
    case CallAct(_, s) => 1 + ScriptSize(s)
    case _ => 1
  }

  lemma {:induction false} ActIsSmaller(acts: seq<Act>, i: nat)
    requires i < |acts|
    ensures ActSize(acts[i]) <= ActsSize(acts)
  {
    if i == 0 {
    } else {
      ActIsSmaller(acts[1..], i - 1);
    }
  }

  /** A slot of the script table; both references are -1 once the script is unloaded. */
  datatype Entry = Entry(id: ScriptId, name: string, moduleRef: int, envRef: int)

  datatype PendingOp = LoadOp(id: ScriptId, name: string, script: Script, chunkRef: Ref) | UnloadOp(id: ScriptId)

  datatype Result = Ok(id: ScriptId) | Busy | InvalidArgument | NotFound | CompileError | RunError

  // -------------------------------------------------------------------------
  // Reference ownership
  // -------------------------------------------------------------------------

  /** How often `r` is owned by a script table entry, by the whole table, by a queued change, by the queue. */
  function EntryOwns(e: Entry, r: Ref): nat {
    (if e.moduleRef == r then 1 else 0) + (if e.envRef == r then 1 else 0)
  }

  function ScriptsOwn(s: seq<Entry>, r: Ref): nat {
    if s == [] then 0 else ScriptsOwn(s[..|s| - 1], r) + EntryOwns(s[|s| - 1], r)
  }

  function OpOwns(op: PendingOp, r: Ref): nat {
    if op.LoadOp? && op.chunkRef == r then 1 else 0
  }

  function QueueOwns(ops: seq<PendingOp>, r: Ref): nat {
    if ops == [] then 0 else QueueOwns(ops[..|ops| - 1], r) + OpOwns(ops[|ops| - 1], r)
  }

  lemma {:induction false} ReplaceEntry(s: seq<Entry>, i: nat, e: Entry, r: Ref)
    requires i < |s|
    ensures ScriptsOwn(s[i := e], r) + EntryOwns(s[i], r) == ScriptsOwn(s, r) + EntryOwns(e, r)
  {
    var s' := s[i := e];
    if i == |s| - 1 {
      assert s'[..|s| - 1] == s[..|s| - 1];
    } else {
      ReplaceEntry(s[..|s| - 1], i, e, r);
      assert s'[..|s| - 1] == s[..|s| - 1][i := e];
    }
  }

  lemma AppendEntry(s: seq<Entry>, e: Entry, r: Ref)
    ensures ScriptsOwn(s + [e], r) == ScriptsOwn(s, r) + EntryOwns(e, r)
  {
    assert (s + [e])[..|s|] == s;
  }

  lemma AppendOp(ops: seq<PendingOp>, op: PendingOp, r: Ref)
    ensures QueueOwns(ops + [op], r) == QueueOwns(ops, r) + OpOwns(op, r)
  {
    assert (ops + [op])[..|ops|] == ops;
  }

  lemma {:induction false} FirstOp(ops: seq<PendingOp>, r: Ref)
    requires ops != []
    ensures QueueOwns(ops, r) == OpOwns(ops[0], r) + QueueOwns(ops[1..], r)
  {
    if |ops| > 1 {
      FirstOp(ops[..|ops| - 1], r);
      assert ops[1..][..|ops| - 2] == ops[..|ops| - 1][1..];
    } else {
      assert ops[..0] == [];
    }
  }

  /** Every live registry reference has exactly one owner, and nothing else is owned. */
  ghost predicate Owned(scripts: seq<Entry>, pending: seq<PendingOp>, subscribers: seq<Ref>, held: multiset<Ref>,
                        registry: set<Ref>) {
    forall r: Ref ::
      ScriptsOwn(scripts, r) + QueueOwns(pending, r) + multiset(subscribers)[r] + held[r]
      == if r in registry then 1 else 0
  }

  lemma {:induction false} QueueOwnsMore(ops: seq<PendingOp>, more: seq<PendingOp>, r: Ref)
    requires ops <= more
    ensures QueueOwns(ops, r) <= QueueOwns(more, r)
  {
    if |ops| == |more| {
      assert ops == more;
    } else {
      QueueOwnsMore(ops, more[..|more| - 1], r);
    }
  }

  /** While queue and subscribers only grow, no reference is given back. */
  lemma NothingReleased(scripts: seq<Entry>, pending: seq<PendingOp>, subscribers: seq<Ref>, held: multiset<Ref>,
                        registry: set<Ref>, pending': seq<PendingOp>, subscribers': seq<Ref>, registry': set<Ref>)
    requires Owned(scripts, pending, subscribers, held, registry)
    requires Owned(scripts, pending', subscribers', held, registry')
    requires pending <= pending' && subscribers <= subscribers'
    ensures registry <= registry'
  {
    forall r | r in registry ensures r in registry' {
      QueueOwnsMore(pending, pending', r);
      assert subscribers' == subscribers + subscribers'[|subscribers|..];
      assert multiset(subscribers') == multiset(subscribers) + multiset(subscribers'[|subscribers|..]);
    }
  }

  /** The script of that name is the one just made, with references of its own; all others are as they were. */
  ghost predicate Installed(before: seq<Entry>, after: seq<Entry>, name: string, id: ScriptId, registry: set<Ref>) {
    && 1 <= id <= |after| && id <= |before| + 1 && |after| == (if id <= |before| then |before| else |before| + 1)
    && (forall k :: 0 <= k < |before| && k != id - 1 ==> after[k] == before[k])
    && var e := after[id - 1];
       && e.id == id && e.name == name && e.moduleRef >= 0 && e.envRef >= 0 && e.moduleRef != e.envRef
       && (e.moduleRef as Ref) !in registry && (e.envRef as Ref) !in registry
  }

  lemma EntryInstalled(before: seq<Entry>, after: seq<Entry>, name: string, id: ScriptId, m: Ref, e: Ref,
                       registry: set<Ref>)
    requires 1 <= id <= |before| + 1 && m != e && m !in registry && e !in registry
    requires after == if id <= |before| then before[id - 1 := Entry(id, name, m, e)]
                      else before + [Entry(id, name, m, e)]
    ensures Installed(before, after, name, id, registry)
  {
  }

  lemma {:induction false} ScriptsOwnMeans(s: seq<Entry>, r: Ref)
    ensures ScriptsOwn(s, r) > 0 <==> exists i :: 0 <= i < |s| && EntryOwns(s[i], r) > 0
  {
    if s == [] {
    } else {
      ScriptsOwnMeans(s[..|s| - 1], r);
      assert forall i :: 0 <= i < |s| - 1 ==> s[..|s| - 1][i] == s[i];
      assert s[|s| - 1] == s[|s| - 1];
    }
  }

  lemma {:induction false} QueueOwnsMeans(ops: seq<PendingOp>, r: Ref)
    ensures QueueOwns(ops, r) > 0 <==> exists i :: 0 <= i < |ops| && OpOwns(ops[i], r) > 0
  {
    if ops == [] {
    } else {
      QueueOwnsMeans(ops[..|ops| - 1], r);
      assert forall i :: 0 <= i < |ops| - 1 ==> ops[..|ops| - 1][i] == ops[i];
    }
  }

  /**
   Between calls (nothing held by local variables) the live references are exactly the module and
   environment references in the table, the chunks in the queue and the subscribers: no leak.
   */
  lemma LiveReferences(scripts: seq<Entry>, pending: seq<PendingOp>, subscribers: seq<Ref>, registry: set<Ref>, r: Ref)
    requires Owned(scripts, pending, subscribers, multiset{}, registry)
    ensures r in registry <==>
      || (exists i :: 0 <= i < |scripts| && EntryOwns(scripts[i], r) > 0)
      || (exists i :: 0 <= i < |pending| && OpOwns(pending[i], r) > 0)
      || r in subscribers
  {
    ScriptsOwnMeans(scripts, r);
    QueueOwnsMeans(pending, r);
    assert r in subscribers <==> multiset(subscribers)[r] > 0;
  }

  // -------------------------------------------------------------------------
  // The table, seen from outside
  // -------------------------------------------------------------------------

  datatype Slot = Slot(name: string, loaded: bool)

  function View(s: seq<Entry>): (v: seq<Slot>)
    ensures |v| == |s|
  {
    seq(|s|, i requires 0 <= i < |s| => Slot(s[i].name, s[i].moduleRef >= 0))
  }

  predicate NamedAt(v: seq<Slot>, name: string, id: ScriptId) {
    1 <= id <= |v| && v[id - 1] == Slot(name, true)
  }

  /** The name index is the inverse of the loaded slots. */
  ghost predicate TableOk(scripts: seq<Entry>, byName: map<string, ScriptId>) {
    && (forall i :: 0 <= i < |scripts| ==>
          scripts[i].id == i + 1 && (scripts[i].moduleRef >= 0 <==> scripts[i].envRef >= 0))
    && (forall n, id :: Maps(byName, n, id) <==> NamedAt(View(scripts), n, id))
  }

  /** The id under which a load of `name` would take effect on this table. */
  function TargetId(v: seq<Slot>, name: string): (id: ScriptId)
    ensures 1 <= id <= |v| + 1
  {
    FirstNamed(v, name, 0)
  }

  /** The first loaded slot with the name at or after `from`, or the next free id. */
  function FirstNamed(v: seq<Slot>, name: string, from: nat): (id: ScriptId)
    requires from <= |v|
    ensures from + 1 <= id <= |v| + 1
    ensures id <= |v| ==> NamedAt(v, name, id)
    ensures id == |v| + 1 ==> forall k :: from < k <= |v| ==> !NamedAt(v, name, k)
    decreases |v| - from
  {
    if from == |v| then |v| + 1
    else if v[from] == Slot(name, true) then from + 1
    else FirstNamed(v, name, from + 1)
  }

  function Activated(v: seq<Slot>, name: string): seq<Slot> {
    if TargetId(v, name) <= |v| then v else v + [Slot(name, true)]
  }

  function Removed(v: seq<Slot>, id: ScriptId): seq<Slot> {
    if 1 <= id <= |v| && v[id - 1].loaded then v[id - 1 := v[id - 1].(loaded := false)] else v
  }

  /** The effect of one queued change: a failed activation leaves the table alone. */
  function AppliedOne(v: seq<Slot>, op: PendingOp): seq<Slot> {
    match op
    case UnloadOp(id) => Removed(v, id)
    case LoadOp(_, name, script, _) => if script.finished then Activated(v, name) else v
  }

  function Applied(v: seq<Slot>, ops: seq<PendingOp>): seq<Slot> {
    if ops == [] then v else AppliedOne(Applied(v, ops[..|ops| - 1]), ops[|ops| - 1])
  }

  /** Slots are never renamed or taken away, and an unloaded one stays unloaded. */
  ghost predicate Later(v: seq<Slot>, v': seq<Slot>) {
    && |v| <= |v'|
    && forall i :: 0 <= i < |v| ==> v'[i].name == v[i].name && (v'[i].loaded ==> v[i].loaded)
  }

  lemma {:induction false} AppliedIsLater(v: seq<Slot>, ops: seq<PendingOp>)
    ensures Later(v, Applied(v, ops))
  {
    if ops == [] {
    } else {
      AppliedIsLater(v, ops[..|ops| - 1]);
    }
  }

  lemma LaterSelf(v: seq<Slot>)
    ensures Later(v, v)
  {
  }

  lemma ActivatedIsLater(v: seq<Slot>, name: string)
    ensures Later(v, Activated(v, name))
  {
  }

  lemma LaterChain(a: seq<Slot>, b: seq<Slot>, c: seq<Slot>)
    requires Later(a, b) && Later(b, c)
    ensures Later(a, c)
  {
  }

  /** Over any run of operations, each of which only goes forward, an unloaded id is never loaded again. */
  lemma {:induction false} UnloadedForGood(views: seq<seq<Slot>>, i: nat, j: nat, id: ScriptId)
    requires i <= j < |views| && forall k :: 0 <= k < |views| - 1 ==> Later(views[k], views[k + 1])
    requires 1 <= id <= |views[i]|
    ensures Later(views[i], views[j])
    ensures !views[i][id - 1].loaded ==> !views[j][id - 1].loaded
    ensures views[j][id - 1].name == views[i][id - 1].name
  {
    if i < j {
      UnloadedForGood(views, i, j - 1, id);
      LaterChain(views[i], views[j - 1], views[j]);
    }
  }

  // -------------------------------------------------------------------------
  // What a run queues
  // -------------------------------------------------------------------------

  /** A queued change without the chunk it owns. */
  datatype Change = LoadChange(id: ScriptId, name: string, script: Script) | UnloadChange(id: ScriptId)

  function ChangeOf(op: PendingOp): Change {
    match op
    case LoadOp(id, name, script, _) => LoadChange(id, name, script)
    case UnloadOp(id) => UnloadChange(id)
  }

  function Changes(ops: seq<PendingOp>): seq<Change> {
    if ops == [] then [] else Changes(ops[..|ops| - 1]) + [ChangeOf(ops[|ops| - 1])]
  }

  predicate LoadedAt(v: seq<Slot>, id: ScriptId) {
    1 <= id <= |v| && v[id - 1].loaded
  }

  /** What a list of calls back asks for while a script runs over the table v. */
  function Asked(acts: seq<Act>, v: seq<Slot>): seq<Change>
    decreases ActsSize(acts), 1
  {
    if acts == [] then []
    else
      ActsSplit(acts, |acts| - 1);
      Asked(acts[..|acts| - 1], v) + AskedBy(acts[|acts| - 1], v)
  }

  function AskedBy(a: Act, v: seq<Slot>): seq<Change>
    decreases ActSize(a), 0
  {
    match a
    case LoadAct(name, script) =>
      if name != "" && script.compiles then [LoadChange(TargetId(v, name), name, script)] else []
    case UnloadAct(id) => if LoadedAt(v, id) then [UnloadChange(id)] else []
    case CallAct(id, body) => if LoadedAt(v, id) && body.compiles then Queues(body, v) else []
    case _ => []
  }

  /** What of it stays queued after the run: nothing once a limit was hit. */
  function Queues(script: Script, v: seq<Slot>): seq<Change>
    decreases ScriptSize(script), 1
  {
    if script.limitHit then [] else Asked(script.acts, v)
  }

  lemma {:induction false} ActsSplit(acts: seq<Act>, i: nat)
    requires i < |acts|
    ensures ActsSize(acts[..i]) + ActSize(acts[i]) <= ActsSize(acts)
    ensures ActsSize(acts[..i]) < ActsSize(acts)
  {
    if i > 0 {
      ActsSplit(acts[1..], i - 1);
      assert acts[..i][1..] == acts[1..][..i - 1];
    } else {
      assert acts[..0] == [];
    }
  }

  lemma NothingAsked(v: seq<Slot>, before: seq<Change>)
    ensures Asked([], v) == [] && before + Asked([], v) == before
  {
  }

  lemma OneMoreAct(acts: seq<Act>, i: nat, v: seq<Slot>, before: seq<Change>)
    requires i < |acts|
    ensures (before + Asked(acts[..i], v)) + AskedBy(acts[i], v) == before + Asked(acts[..i + 1], v)
  {
    assert acts[..i + 1][..i] == acts[..i];
  }

  lemma ChangesMore(ops: seq<PendingOp>, op: PendingOp)
    ensures Changes(ops + [op]) == Changes(ops) + [ChangeOf(op)]
  {
    assert (ops + [op])[..|ops|] == ops;
  }

  lemma GainsAll(script: Script, v: seq<Slot>, before: seq<Change>)
    ensures before + Queues(script, v) == before + Asked(script.acts, v)
            <==> !script.limitHit || Asked(script.acts, v) == []
  {
    assert (before + Queues(script, v))[|before|..] == Queues(script, v);
    assert (before + Asked(script.acts, v))[|before|..] == Asked(script.acts, v);
  }

  /**
   A chunk that queues a load, runs into a limit and catches the error: it is activated like any
   other that ends normally, and what it queued is gone.
   */
  lemma CaughtLimit(v: seq<Slot>, name: string, other: string, chunkRef: Ref)
    requires other != "" && TargetId(v, name) == |v| + 1
    ensures var asks := LoadAct(other, Script(true, [], true, false));
            var script := Script(true, [asks], true, true);
            && LoadedAt(AppliedOne(v, LoadOp(|v| + 1, name, script, chunkRef)), |v| + 1)
            && |Asked(script.acts, v)| == 1 && Queues(script, v) == []
  {
    var asks := LoadAct(other, Script(true, [], true, false));
    assert [asks][..0] == [];
    assert Asked([asks], v) == Asked([], v) + AskedBy(asks, v);
  }

  // -------------------------------------------------------------------------
  // The ids promised to queued loads
  // -------------------------------------------------------------------------

  /** No two loaded slots have one name. */
  predicate Unique(v: seq<Slot>) {
    forall i, j :: 0 <= i < j < |v| && v[i].loaded && v[j].loaded ==> v[i].name != v[j].name
  }

  /** The queue after a safe point: what its chunks asked for, each on the table it found. */
  function Requeued(v: seq<Slot>, ops: seq<PendingOp>): seq<Change> {
    if ops == [] then []
    else
      var n := |ops| - 1;
      Requeued(v, ops[..n]) + if ops[n].LoadOp? then Queues(ops[n].script, Applied(v, ops[..n])) else []
  }

  /** Does the load at j, among these changes, find its name not loaded? */
  predicate Adds(v: seq<Slot>, ops: seq<PendingOp>, j: nat) {
    j < |ops| && ops[j].LoadOp? && ops[j].script.finished
    && (TargetId(v, ops[j].name) == |v| + 1 || UnloadOp(TargetId(v, ops[j].name)) in ops[..j])
  }

  predicate FirstAdder(v: seq<Slot>, ops: seq<PendingOp>, j: nat) {
    Adds(v, ops, j) && forall i: nat :: i < j ==> !Adds(v, ops, i)
  }

  /**
   When the id promised on the table v is still right after the changes `ops`: for a loaded name, its
   unloading is not among them; for a new name, the first change that adds a slot, if any, adds it
   for that name, and the slot is not unloaded again.
   */
  ghost predicate KeepsPromise(v: seq<Slot>, ops: seq<PendingOp>, name: string) {
    var id := TargetId(v, name);
    if id <= |v| then UnloadOp(id) !in ops
    else forall j: nat :: FirstAdder(v, ops, j) ==> ops[j].name == name && UnloadOp(id) !in ops[j..]
  }

  lemma {:induction false} AppliedSplit(v: seq<Slot>, ops: seq<PendingOp>, k: nat)
    requires k <= |ops|
    ensures Applied(v, ops) == Applied(Applied(v, ops[..k]), ops[k..])
    decreases |ops|
  {
    if k < |ops| {
      var n := |ops| - 1;
      AppliedSplit(v, ops[..n], k);
      assert ops[..n][..k] == ops[..k] && ops[..n][k..] == ops[k..][..n - k];
    } else {
      assert ops[..k] == ops && ops[k..] == [];
    }
  }

  /** A loaded slot stays loaded exactly as long as its unloading is not applied. */
  lemma {:induction false} LoadedWhile(v: seq<Slot>, ops: seq<PendingOp>, id: ScriptId)
    requires LoadedAt(v, id)
    ensures Later(v, Applied(v, ops))
    ensures LoadedAt(Applied(v, ops), id) <==> UnloadOp(id) !in ops
  {
    AppliedIsLater(v, ops);
    if ops == [] {
    } else {
      var n := |ops| - 1;
      LoadedWhile(v, ops[..n], id);
      assert ops == ops[..n] + [ops[n]];
    }
  }

  lemma TargetIs(v: seq<Slot>, name: string, id: ScriptId)
    requires 1 <= id <= |v| + 1 && (forall k :: 0 < k < id ==> !NamedAt(v, name, k))
    requires id <= |v| ==> NamedAt(v, name, id)
    ensures TargetId(v, name) == id
  {
    var t := TargetId(v, name);
    assert t <= |v| ==> NamedAt(v, name, t);
    FirstBefore(v, name, 0, id);
  }

  /** No slot before the target is a loaded one of that name. */
  lemma NoneBefore(v: seq<Slot>, name: string, k: ScriptId)
    requires 0 < k < TargetId(v, name)
    ensures !NamedAt(v, name, k)
  {
    if NamedAt(v, name, k) {
      FirstBefore(v, name, 0, k);
    }
  }

  lemma {:induction false} FirstBefore(v: seq<Slot>, name: string, from: nat, id: ScriptId)
    requires from < id <= |v| + 1 && (id <= |v| ==> NamedAt(v, name, id))
    ensures FirstNamed(v, name, from) <= id
    decreases |v| - from
  {
    if from < |v| && v[from] != Slot(name, true) {
      FirstBefore(v, name, from + 1, id);
    }
  }

  /** Until a change adds a slot there are as many slots as before. */
  lemma {:induction false} NoneAdded(v: seq<Slot>, ops: seq<PendingOp>)
    requires forall j: nat :: j < |ops| ==> !Adds(v, ops, j)
    ensures |Applied(v, ops)| == |v|
  {
    if ops == [] {
    } else {
      var n := |ops| - 1;
      forall j: nat | j < n ensures !Adds(v, ops[..n], j) {
        assert ops[..n][..j] == ops[..j];
        assert !Adds(v, ops, j);
      }
      NoneAdded(v, ops[..n]);
      assert !Adds(v, ops, n);
      if ops[n].LoadOp? && ops[n].script.finished {
        var id := TargetId(v, ops[n].name);
        LoadedWhile(v, ops[..n], id);
        FirstBefore(Applied(v, ops[..n]), ops[n].name, 0, id);
      }
    }
  }

  /** The first change that adds a slot adds it behind the others, under its name. */
  lemma FirstAdded(v: seq<Slot>, ops: seq<PendingOp>, j: nat)
    requires Unique(v) && FirstAdder(v, ops, j)
    ensures var w := Applied(v, ops[..j + 1]); |w| == |v| + 1 && w[|v|] == Slot(ops[j].name, true)
  {
    forall i: nat | i < j ensures !Adds(v, ops[..j], i) {
      assert ops[..j][..i] == ops[..i];
      assert !Adds(v, ops, i);
    }
    NoneAdded(v, ops[..j]);
    AppliedIsLater(v, ops[..j]);
    var w, name, id := Applied(v, ops[..j]), ops[j].name, TargetId(v, ops[j].name);
    if id <= |v| {
      LoadedWhile(v, ops[..j], id);
    }
    forall k | 0 < k <= |w| && k != id ensures !NamedAt(w, name, k) {
      assert NamedAt(w, name, k) ==> NamedAt(v, name, k);
      if k < id {
        NoneBefore(v, name, k);
      }
    }
    TargetIs(w, name, |w| + 1);
    assert ops[..j + 1][..j] == ops[..j];
  }

  lemma {:induction false} SomeFirstAdder(v: seq<Slot>, ops: seq<PendingOp>, j: nat) returns (i: nat)
    requires Adds(v, ops, j)
    ensures i <= j && FirstAdder(v, ops, i)
    decreases j
  {
    if k: nat :| k < j && Adds(v, ops, k) {
      i := SomeFirstAdder(v, ops, k);
    } else {
      i := j;
    }
  }

  /**
   * The id promised for a name is the one a load takes effect under, after any changes, exactly if they keep
   * the promise.
   */
  lemma PromiseKeptIff(v: seq<Slot>, ops: seq<PendingOp>, name: string)
    requires Unique(v)
    ensures TargetId(Applied(v, ops), name) == TargetId(v, name) <==> KeepsPromise(v, ops, name)
  {
    if TargetId(v, name) <= |v| {
      LoadedNameKept(v, ops, name);
    } else {
      NewNameKept(v, ops, name);
    }
  }

  lemma LoadedNameKept(v: seq<Slot>, ops: seq<PendingOp>, name: string)
    requires TargetId(v, name) <= |v|
    ensures TargetId(Applied(v, ops), name) == TargetId(v, name) <==> UnloadOp(TargetId(v, name)) !in ops
  {
    var id, w := TargetId(v, name), Applied(v, ops);
    LoadedWhile(v, ops, id);
    forall k | 0 < k < id ensures !NamedAt(w, name, k) {
      NoneBefore(v, name, k);
    }
    if UnloadOp(id) !in ops {
      TargetIs(w, name, id);
    } else {
      assert !NamedAt(w, name, id);
    }
  }

  lemma NewNameKept(v: seq<Slot>, ops: seq<PendingOp>, name: string)
    requires Unique(v) && TargetId(v, name) == |v| + 1
    ensures TargetId(Applied(v, ops), name) == |v| + 1 <==> KeepsPromise(v, ops, name)
  {
    hide TargetId, Adds, Applied;
    var w := Applied(v, ops);
    AppliedIsLater(v, ops);
    forall k | 0 < k <= |v| ensures !NamedAt(w, name, k) {
      NoneBefore(v, name, k);
    }
    if m: nat :| Adds(v, ops, m) {
      var j := SomeFirstAdder(v, ops, m);
      FirstAdderLast(v, ops, name, j);
      assert TargetId(w, name) == |v| + 1 ==> NamedAt(w, name, |v| + 1) by {
        TargetMeans(w, name);
      }
      if NamedAt(w, name, |v| + 1) {
        TargetIs(w, name, |v| + 1);
      }
      forall i: nat | FirstAdder(v, ops, i) ensures i == j {
        assert Adds(v, ops, i) && Adds(v, ops, j);
      }
    } else {
      NoneAdded(v, ops);
      TargetIs(w, name, |v| + 1);
    }
  }

  lemma TargetMeans(v: seq<Slot>, name: string)
    ensures 1 <= TargetId(v, name) <= |v| + 1
    ensures TargetId(v, name) <= |v| ==> NamedAt(v, name, TargetId(v, name))
  {
  }

  /** The slot that is added first keeps its name, and is loaded in the end unless it is unloaded again. */
  lemma FirstAdderLast(v: seq<Slot>, ops: seq<PendingOp>, name: string, j: nat)
    requires Unique(v) && FirstAdder(v, ops, j)
    ensures |Applied(v, ops)| > |v|
    ensures NamedAt(Applied(v, ops), name, |v| + 1) <==> ops[j].name == name && UnloadOp(|v| + 1) !in ops[j..]
  {
    hide TargetId, Applied;
    FirstAdded(v, ops, j);
    AppliedSplit(v, ops, j + 1);
    LoadedWhile(Applied(v, ops[..j + 1]), ops[j + 1..], |v| + 1);
    assert ops[j..] == [ops[j]] + ops[j + 1..];
  }

  /** Every load that a run leaves in the queue carries the id its name has on the table of that run. */
  lemma {:induction false} QueuedIdsArePromised(acts: seq<Act>, v: seq<Slot>)
    ensures forall c :: c in Asked(acts, v) && c.LoadChange? ==> c.id == TargetId(v, c.name)
    decreases ActsSize(acts)
  {
    if acts == [] {
    } else {
      var n := |acts| - 1;
      ActsSplit(acts, n);
      QueuedIdsArePromised(acts[..n], v);
      assert Asked(acts, v) == Asked(acts[..n], v) + AskedBy(acts[n], v);
      if acts[n].CallAct? {
        QueuedIdsArePromised(acts[n].body.acts, v);
      }
    }
  }

  /**
   The id that a queued load was promised is the one it takes effect under at the safe point exactly
   if the changes before it keep the promise. v is the table on which it was promised; changes made
   since then count among the changes before it.
   */
  lemma QueuedPromiseKeptIff(v: seq<Slot>, ops: seq<PendingOp>, k: nat)
    requires Unique(v) && k < |ops| && ops[k].LoadOp? && ops[k].id == TargetId(v, ops[k].name)
    ensures TargetId(Applied(v, ops[..k]), ops[k].name) == ops[k].id <==> KeepsPromise(v, ops[..k], ops[k].name)
  {
    PromiseKeptIff(v, ops[..k], ops[k].name);
  }

  /** Two new names queued in one run are promised the same id, but take effect under different ones. */
  lemma PromisedIdsCollide(v: seq<Slot>, a: string, b: string)
    requires a != b && TargetId(v, a) == |v| + 1 && TargetId(v, b) == |v| + 1
    ensures TargetId(v, a) == TargetId(v, b)
    ensures TargetId(Activated(v, a), b) != TargetId(v, b)
  {
    assert Activated(v, a)[|v|] == Slot(a, true);
  }

  /** A load queued behind the unloading of its own name is promised the id that is given up. */
  lemma UnloadingBreaksPromise(v: seq<Slot>, name: string)
    requires Unique(v) && TargetId(v, name) <= |v|
    ensures TargetId(Applied(v, [UnloadOp(TargetId(v, name))]), name) == |v| + 1
  {
    var id := TargetId(v, name);
    var ops := [UnloadOp(id)];
    assert Applied(v, ops[..0]) == v;
    TargetIs(Applied(v, ops), name, |v| + 1);
  }

  // -------------------------------------------------------------------------
  // The host
  // -------------------------------------------------------------------------

  class ScriptContext {
    var scripts: seq<Entry>
    var byName: map<string, ScriptId>
    var pending: seq<PendingOp>
    var runDepth: nat
    var subscribers: seq<Ref>
    var registry: set<Ref>            // live references of the Lua registry
    ghost var held: multiset<Ref>     // references owned by local variables of running calls

    ghost predicate Valid()
      reads this
    {
      && TableOk(scripts, byName)
      && Owned(scripts, pending, subscribers, held, registry)
    }

    /** What no call may touch while a script runs. */
    twostate predicate TablesUntouched()
      reads this
    {
      scripts == old(scripts) && byName == old(byName)
    }

    constructor ()
      ensures Valid() && runDepth == 0 && held == multiset{} && |scripts| == 0 && |pending| == 0
    {
      scripts, byName, pending, runDepth, subscribers := [], map[], [], 0, [];
      registry, held := {}, multiset{};
    }

    /** luaL_ref: some reference that is not in use. */
    method NewRef() returns (r: Ref)
      requires Valid()
      modifies this`registry, this`held
      ensures Valid()
      ensures r !in old(registry) && registry == old(registry) + {r} && held == old(held) + multiset{r}
    {
      r := FreshRef(registry);
      registry := registry + {r};
      held := held + multiset{r};
    }

    /** luaL_unref: only ever called on a live reference, so nothing is released twice. */
    method Unref(r: Ref)
      requires Valid() && r in held
      modifies this`registry, this`held
      ensures Valid()
      ensures r in old(registry) && registry == old(registry) - {r} && held == old(held) - multiset{r}
    {
      assert held[r] == 1 && r in registry;
      registry := registry - {r};
      held := held - multiset{r};
    }

    /** Releases the two references of a slot. */
    method UnrefBoth(a: Ref, b: Ref, ghost rest: multiset<Ref>)
      requires Valid() && held == rest + multiset{a, b}
      modifies this`registry, this`held
      ensures Valid() && held == rest
    {
      hide Owned, TableOk;
      AddThenTake(rest, a, b);
      Unref(a);
      Unref(b);
    }

    // ---- runs ----

    /** The guard around every execution; a run in which a limit was hit takes its queued changes back. */
    method Run(script: Script)
      requires Valid()
      modifies this
      ensures Valid() && TablesUntouched() && runDepth == old(runDepth) && held == old(held)
      ensures script.limitHit ==> pending == old(pending)
      ensures old(pending) <= pending && old(subscribers) <= subscribers
      ensures Changes(pending) == Changes(old(pending)) + Queues(script, View(scripts))
      ensures Changes(pending) == Changes(old(pending)) + Asked(script.acts, View(scripts))
              <==> !script.limitHit || Asked(script.acts, View(scripts)) == []
      decreases if runDepth == 0 then 1 else 0, ScriptSize(script), 0
    {
      hide Owned, TableOk, View, Asked, AskedBy;
      GainsAll(script, View(scripts), Changes(pending));
      NothingAsked(View(scripts), Changes(pending));
      assert script.acts[..0] == [];
      runDepth := runDepth + 1;
      var pendingMark := |pending|;
      for i := 0 to |script.acts|
        invariant Valid() && TablesUntouched() && runDepth == old(runDepth) + 1 && held == old(held)
        invariant old(pending) <= pending && old(subscribers) <= subscribers
        invariant Changes(pending) == Changes(old(pending)) + Asked(script.acts[..i], View(scripts))
      {
        ActIsSmaller(script.acts, i);
        OneMoreAct(script.acts, i, View(scripts), Changes(old(pending)));
        Perform(script.acts[i]);
      }
      assert script.acts[..|script.acts|] == script.acts;
      runDepth := runDepth - 1;
      if script.limitHit {
        Rollback(pendingMark);
        assert Changes(pending) + [] == Changes(pending);
      }
    }

    /** Releases the compiled chunks of the changes queued since `mark` and forgets the changes. */
    method Rollback(mark: nat)
      requires Valid() && mark <= |pending|
      modifies this`pending, this`registry, this`held
      ensures Valid() && pending == old(pending)[..mark] && held == old(held)
    {
      while |pending| > mark
        invariant Valid() && mark <= |pending| && pending[..mark] == old(pending)[..mark] && held == old(held)
        decreases |pending|
      {
        var op := pending[mark];
        DropOp(mark);
        if op.LoadOp? {
          Unref(op.chunkRef);
        }
      }
    }

    /** Takes one change out of the queue; its chunk is now held by the caller. */
    method DropOp(i: nat)
      requires Valid() && i < |pending|
      modifies this`pending, this`held
      ensures Valid() && pending == old(pending)[..i] + old(pending)[i + 1..]
      ensures held == old(held) + ChunkOf(old(pending)[i])
    {
      forall r: Ref
        ensures QueueOwns(pending, r) == OpOwns(pending[i], r) + QueueOwns(pending[..i] + pending[i + 1..], r)
      {
        RemoveOp(pending, i, r);
      }
      held := held + ChunkOf(pending[i]);
      pending := pending[..i] + pending[i + 1..];
    }

    /** One call back from a running script. */
    method Perform(a: Act)
      requires Valid() && runDepth > 0
      modifies this
      ensures Valid() && TablesUntouched() && runDepth == old(runDepth) && held == old(held)
      ensures old(pending) <= pending && old(subscribers) <= subscribers
      ensures Changes(pending) == Changes(old(pending)) + AskedBy(a, View(scripts))
      decreases 0, ActSize(a), 0
    {
      hide Owned, TableOk, Queues;
      assert Changes(pending) + [] == Changes(pending);
      match a {
        case LoadAct(name, script) => var r := Load(name, script);
        case ReloadAct(name, script) => var r := ReloadInPlace(name, script);
        case UnloadAct(id) => {
          assert IsLoaded(id) <==> LoadedAt(View(scripts), id);
          var r := Unload(id);
        }
        case CallAct(id, body) => var r := Call(id, body);
        case ApplyAct => var r := ApplyPendingChanges();
        case SubscribeAct => Subscribe();
      }
    }

    // ---- compiling and running a chunk ----

    /** Runs a compiled chunk; on success its module table and its environment become references. */
    method RunCompiledChunk(script: Script) returns (ok: bool, moduleRef: Ref, envRef: Ref)
      requires Valid()
      modifies this
      ensures Valid() && TablesUntouched() && runDepth == old(runDepth)
      ensures ok <==> script.finished
      ensures ok ==> moduleRef != envRef && held == old(held) + multiset{moduleRef, envRef}
      ensures !ok ==> held == old(held)
      ensures ok ==> moduleRef !in old(registry) && envRef !in old(registry)
      ensures Changes(pending) == Changes(old(pending)) + Queues(script, View(scripts))
      ensures Changes(pending) == Changes(old(pending)) + Asked(script.acts, View(scripts))
              <==> !script.limitHit || Asked(script.acts, View(scripts)) == []
      ensures script.limitHit ==> pending == old(pending)
      ensures old(pending) <= pending && old(subscribers) <= subscribers
      decreases if runDepth == 0 then 1 else 0, ScriptSize(script), 1
    {
      hide Owned, TableOk;
      Run(script);
      NothingReleased(scripts, old(pending), old(subscribers), held, old(registry), pending, subscribers, registry);
      if !script.finished {
        return false, 0, 0;
      }
      moduleRef := NewRef();
      envRef := NewRef();
      return true, moduleRef, envRef;
    }

    /** Compiles and runs a chunk outside of any queue. */
    method RunChunkFromSource(script: Script) returns (ok: bool, moduleRef: Ref, envRef: Ref)
      requires Valid() && script.compiles
      modifies this
      ensures Valid() && TablesUntouched() && runDepth == old(runDepth)
      ensures ok <==> script.finished
      ensures ok ==> moduleRef != envRef && held == old(held) + multiset{moduleRef, envRef}
      ensures !ok ==> held == old(held)
      ensures ok ==> moduleRef !in old(registry) && envRef !in old(registry)
      ensures Changes(pending) == Changes(old(pending)) + Queues(script, View(scripts))
      ensures script.limitHit ==> pending == old(pending)
      ensures old(pending) <= pending && old(subscribers) <= subscribers
      decreases if runDepth == 0 then 1 else 0, ScriptSize(script), 2
    {
      hide Owned, TableOk, View, Queues, Changes, Asked, ScriptSize;
      var chunkRef := NewRef();
      ok, moduleRef, envRef := RunCompiledChunk(script);
      AddThenDrop(old(held), chunkRef);
      if ok {
        DropBehind(old(held), chunkRef, moduleRef, envRef);
      }
      Unref(chunkRef);
    }

    /** Puts a freshly run script under its name: a known name is replaced in place, a new one appended. */
    method ActivateScript(name: string, moduleRef: Ref, envRef: Ref) returns (id: ScriptId)
      requires Valid() && moduleRef != envRef && moduleRef in held && envRef in held
      modifies this`scripts, this`byName, this`registry, this`held
      ensures Valid() && held == old(held) - multiset{moduleRef, envRef}
      ensures id == TargetId(View(old(scripts)), name)
      ensures View(scripts) == Activated(View(old(scripts)), name)
      ensures name in old(byName) ==> byName == old(byName)
      ensures scripts == if id <= |old(scripts)| then old(scripts)[id - 1 := Entry(id, name, moduleRef, envRef)]
                         else old(scripts) + [Entry(id, name, moduleRef, envRef)]
    {
      hide Owned, TableOk;
      TargetOf(scripts, byName, name);
      if name in byName {
        id := byName[name];
        Overwrite(id, Entry(id, name, moduleRef, envRef));
      } else {
        id := |scripts| + 1;
        Append(Entry(id, name, moduleRef, envRef));
      }
    }

    /** The slot gets new references and its old ones are given back. */
    method Overwrite(id: ScriptId, entry: Entry)
      requires Valid() && 0 < id <= |scripts| && HoldsRefs(scripts[id - 1])
      requires entry.id == id && entry.name == scripts[id - 1].name && entry.moduleRef >= 0 && entry.envRef >= 0
      requires entry.moduleRef != entry.envRef && (entry.moduleRef as Ref) in held && (entry.envRef as Ref) in held
      modifies this`scripts, this`registry, this`held
      ensures Valid() && held == old(held) - multiset{entry.moduleRef as Ref, entry.envRef as Ref}
      ensures scripts == old(scripts)[id - 1 := entry] && View(scripts) == View(old(scripts))
    {
      hide Owned, TableOk, View;
      var e := scripts[id - 1];
      ghost var rest := held - multiset{entry.moduleRef as Ref, entry.envRef as Ref};
      Install(id - 1, entry);
      UnrefBoth(e.moduleRef, e.envRef, rest);
    }

    /** Overwrites a loaded slot; the old references pass to the caller. */
    method Install(i: nat, e: Entry)
      requires Valid() && i < |scripts| && HoldsRefs(scripts[i])
      requires e.id == i + 1 && e.name == scripts[i].name && e.moduleRef >= 0 && e.envRef >= 0
      requires e.moduleRef != e.envRef && (e.moduleRef as Ref) in held && (e.envRef as Ref) in held
      modifies this`scripts, this`held
      ensures Valid() && scripts == old(scripts)[i := e]
      ensures held == old(held) - multiset{e.moduleRef as Ref, e.envRef as Ref}
                    + multiset{old(scripts)[i].moduleRef as Ref, old(scripts)[i].envRef as Ref}
      ensures View(scripts) == View(old(scripts))
    {
      hide Owned;
      OwnedReplace(scripts, pending, subscribers, held, registry, i, e);
      held := held - multiset{e.moduleRef as Ref, e.envRef as Ref}
            + multiset{scripts[i].moduleRef as Ref, scripts[i].envRef as Ref};
      assert View(scripts[i := e]) == View(scripts);
      scripts := scripts[i := e];
    }

    /** A new slot at the end of the table. */
    method Append(e: Entry)
      requires Valid() && e.id == |scripts| + 1 && e.name !in byName && e.moduleRef >= 0 && e.envRef >= 0
      requires e.moduleRef != e.envRef && (e.moduleRef as Ref) in held && (e.envRef as Ref) in held
      modifies this`scripts, this`byName, this`held
      ensures Valid() && scripts == old(scripts) + [e]
      ensures held == old(held) - multiset{e.moduleRef as Ref, e.envRef as Ref}
      ensures View(scripts) == View(old(scripts)) + [Slot(e.name, true)]
    {
      TableAppend(scripts, byName, e);
      OwnedAppend(scripts, pending, subscribers, held, registry, e);
      hide Owned, TableOk;
      held := held - multiset{e.moduleRef as Ref, e.envRef as Ref};
      scripts := scripts + [e];
      byName := byName[e.name := e.id];
    }

    predicate IsLoaded(id: ScriptId)
      reads this`scripts
    {
      id != INVALID_SCRIPT_ID && id <= |scripts| && scripts[id - 1].moduleRef >= 0
    }

    method UnloadImmediate(id: ScriptId) returns (r: Result)
      requires Valid()
      modifies this`scripts, this`byName, this`registry, this`held
      ensures Valid() && held == old(held)
      ensures r == if old(IsLoaded(id)) then Ok(id) else NotFound
      ensures View(scripts) == Removed(View(old(scripts)), id)
      ensures scripts == if r == NotFound then old(scripts)
                         else old(scripts)[id - 1 := old(scripts)[id - 1].(moduleRef := -1, envRef := -1)]
    {
      hide Owned, TableOk;
      if !IsLoaded(id) {
        return NotFound;
      }
      hide View, Removed;
      var e := scripts[id - 1];
      LoadedHoldsRefs(scripts, byName, id - 1);
      Vacate(id - 1);
      UnrefBoth(e.moduleRef, e.envRef, old(held));
      return Ok(id);
    }

    /** Empties a loaded slot, which keeps its id for ever; its references pass to the caller. */
    method Vacate(i: nat)
      requires Valid() && i < |scripts| && HoldsRefs(scripts[i])
      modifies this`scripts, this`byName, this`held
      ensures Valid() && scripts == old(scripts)[i := old(scripts)[i].(moduleRef := -1, envRef := -1)]
      ensures held == old(held) + multiset{old(scripts)[i].moduleRef as Ref, old(scripts)[i].envRef as Ref}
      ensures View(scripts) == Removed(View(old(scripts)), i + 1)
    {
      var e := scripts[i].(moduleRef := -1, envRef := -1);
      forall r: Ref
        ensures ScriptsOwn(scripts[i := e], r) + EntryOwns(scripts[i], r) == ScriptsOwn(scripts, r) + EntryOwns(e, r)
      {
        ReplaceEntry(scripts, i, e, r);
      }
      held := held + multiset{scripts[i].moduleRef as Ref, scripts[i].envRef as Ref};
      TableVacate(scripts, byName, i, e);
      byName := byName - {scripts[i].name};
      scripts := scripts[i := e];
    }

    // ---- the public operations ----

    /** Queues a change; a queued load owns its compiled chunk. */
    method Enqueue(op: PendingOp)
      requires Valid() && (op.LoadOp? ==> op.chunkRef in held)
      modifies this`pending, this`held
      ensures Valid() && pending == old(pending) + [op]
      ensures held == old(held) - ChunkOf(op)
    {
      hide Owned, TableOk;
      OwnedEnqueue(scripts, pending, subscribers, held, registry, op);
      held := held - ChunkOf(op);
      pending := pending + [op];
    }

    method Load(name: string, script: Script) returns (r: Result)
      requires Valid()
      modifies this
      ensures Valid() && runDepth == old(runDepth) && held == old(held) && old(subscribers) <= subscribers
      ensures name == "" ==> r == InvalidArgument
      ensures name != "" && !script.compiles ==> r == CompileError
      ensures name == "" || !script.compiles ==> TablesUntouched() && pending == old(pending)
      ensures Later(View(old(scripts)), View(scripts)) && old(pending) <= pending
      ensures name != "" && script.compiles && runDepth > 0 ==>
        r == Ok(TargetId(View(scripts), name)) && TablesUntouched()
      ensures name != "" && script.compiles && runDepth > 0 ==>
        Changes(pending) == Changes(old(pending)) + [LoadChange(TargetId(View(scripts), name), name, script)]
      ensures name != "" && script.compiles && runDepth == 0 ==>
        Changes(pending) == Changes(old(pending)) + Queues(script, View(old(scripts)))
      ensures name != "" && script.compiles && runDepth == 0 && script.finished ==>
        r == Ok(TargetId(View(old(scripts)), name)) && View(scripts) == Activated(View(old(scripts)), name)
      ensures name != "" && script.compiles && runDepth == 0 && script.finished ==>
        Installed(old(scripts), scripts, name, r.id, old(registry))
      ensures name != "" && script.compiles && runDepth == 0 && !script.finished ==>
        r == RunError && TablesUntouched()
      decreases if runDepth == 0 then 1 else 0, ScriptSize(script), 4
    {
      hide Owned, TableOk, View, Queues, TargetId, Activated;
      LaterSelf(View(scripts));
      if name == "" {
        return InvalidArgument;
      }
      TargetOf(scripts, byName, name);
      var target := if name in byName then byName[name] else |scripts| + 1;
      if !script.compiles {
        return CompileError;
      }
      if runDepth > 0 {
        var chunkRef := NewRef();
        ChangesMore(pending, LoadOp(target, name, script, chunkRef));
        Enqueue(LoadOp(target, name, script, chunkRef));
        return Ok(target);
      }
      r := LoadNow(name, script);
    }

    /** A load at a safe point: the chunk is run and activated; inline in the source's Load. */
    method LoadNow(name: string, script: Script) returns (r: Result)
      requires Valid() && name != "" && script.compiles && runDepth == 0
      modifies this
      ensures Valid() && runDepth == 0 && held == old(held) && old(subscribers) <= subscribers
      ensures Later(View(old(scripts)), View(scripts)) && old(pending) <= pending
      ensures Changes(pending) == Changes(old(pending)) + Queues(script, View(old(scripts)))
      ensures script.finished ==>
        r == Ok(TargetId(View(old(scripts)), name)) && View(scripts) == Activated(View(old(scripts)), name)
      ensures script.finished ==> Installed(old(scripts), scripts, name, r.id, old(registry))
      ensures !script.finished ==> r == RunError && TablesUntouched()
      decreases 1, ScriptSize(script), 3
    {
      hide Owned, TableOk, View, Queues, TargetId, Activated, Changes, Asked, Later, Installed;
      var ok, moduleRef, envRef := RunChunkFromSource(script);
      if !ok {
        LaterSelf(View(scripts));
        return RunError;
      }
      ActivatedIsLater(View(scripts), name);
      AddThenTake(old(held), moduleRef, envRef);
      var id := ActivateScript(name, moduleRef, envRef);
      EntryInstalled(old(scripts), scripts, name, id, moduleRef, envRef, old(registry));
      return Ok(id);
    }


    /** In-place replacement at a safe point only; any failure leaves the old version alone. */
    method ReloadInPlace(name: string, script: Script) returns (r: Result)
      requires Valid()
      modifies this
      ensures Valid() && runDepth == old(runDepth) && held == old(held) && old(subscribers) <= subscribers
      ensures View(scripts) == View(old(scripts)) && byName == old(byName)
      ensures r == if name == "" then InvalidArgument else if runDepth > 0 then Busy
                   else if name !in byName then NotFound else if !script.compiles then CompileError
                   else if !script.finished then RunError else Ok(TargetId(View(scripts), name))
      ensures r.Ok? ==> r.id <= |old(scripts)| && Installed(old(scripts), scripts, name, r.id, old(registry))
      ensures !r.Ok? ==> TablesUntouched()
      ensures old(pending) <= pending
      ensures name != "" && runDepth == 0 && name in byName && script.compiles ==>
        Changes(pending) == Changes(old(pending)) + Queues(script, View(scripts))
      ensures !(name != "" && runDepth == 0 && name in byName && script.compiles) ==> pending == old(pending)
      decreases if runDepth == 0 then 1 else 0, ScriptSize(script), 3
    {
      hide Owned, TableOk, View, Installed;
      if name == "" {
        return InvalidArgument;
      }
      if runDepth > 0 {
        return Busy;
      }
      if name !in byName {
        return NotFound;
      }
      TargetOf(scripts, byName, name);
      if !script.compiles {
        return CompileError;
      }
      var ok, moduleRef, envRef := RunChunkFromSource(script);
      if !ok {
        return RunError;
      }
      var id := ActivateScript(name, moduleRef, envRef);
      EntryInstalled(old(scripts), scripts, name, id, moduleRef, envRef, old(registry));
      return Ok(id);
    }

    method Unload(id: ScriptId) returns (r: Result)
      requires Valid()
      modifies this`scripts, this`byName, this`pending, this`registry, this`held
      ensures Valid() && held == old(held)
      ensures r == if old(IsLoaded(id)) then Ok(id) else NotFound
      ensures runDepth > 0 ==> TablesUntouched() && pending == old(pending) + (if r.Ok? then [UnloadOp(id)] else [])
      ensures runDepth == 0 ==> pending == old(pending) && View(scripts) == Removed(View(old(scripts)), id)
      ensures runDepth > 0 ==>
        Changes(pending) == Changes(old(pending)) + if old(IsLoaded(id)) then [UnloadChange(id)] else []
      ensures Later(View(old(scripts)), View(scripts))
    {
      hide Owned, TableOk;
      if runDepth > 0 {
        ChangesMore(pending, UnloadOp(id));
        if !IsLoaded(id) {
          return NotFound;
        }
        Enqueue(UnloadOp(id));
        return Ok(id);
      }
      r := UnloadImmediate(id);
    }

    /** Runs a function of a loaded script; at any depth, and whatever the function does. */
    method Call(id: ScriptId, body: Script) returns (r: Result)
      requires Valid()
      modifies this
      ensures Valid() && TablesUntouched() && runDepth == old(runDepth) && held == old(held)
      ensures r == if !IsLoaded(id) || !body.compiles then NotFound else if body.finished then Ok(id) else RunError
      ensures Changes(pending) ==
              Changes(old(pending)) + if IsLoaded(id) && body.compiles then Queues(body, View(scripts)) else []
      ensures !IsLoaded(id) || !body.compiles || body.limitHit ==> pending == old(pending)
      ensures old(pending) <= pending && old(subscribers) <= subscribers
      decreases if runDepth == 0 then 1 else 0, ScriptSize(body), 2
    {
      hide Owned, TableOk, Queues;
      assert Changes(pending) + [] == Changes(pending);
      if !IsLoaded(id) {
        return NotFound;
      }
      if !body.compiles {
        return NotFound;
      }
      Run(body);
      return if body.finished then Ok(id) else RunError;
    }

    method Subscribe()
      requires Valid()
      modifies this`subscribers, this`registry, this`held
      ensures Valid() && held == old(held)
      ensures exists r ::
                r !in old(registry) && registry == old(registry) + {r} && subscribers == old(subscribers) + [r]
    {
      hide Owned, TableOk;
      var r := NewRef();
      OwnedSubscribe(scripts, pending, subscribers, held, registry, r);
      AddThenDrop(old(held), r);
      subscribers := subscribers + [r];
      held := held - multiset{r};
    }

    /** The safe point: the queue is applied in order; what its chunks queue themselves waits for the next one. */
    method ApplyPendingChanges() returns (r: Result)
      requires Valid()
      modifies this
      ensures Valid() && runDepth == old(runDepth) && held == old(held) && old(subscribers) <= subscribers
      ensures runDepth > 0 ==> r == Busy && TablesUntouched() && pending == old(pending)
      ensures runDepth == 0 ==> r.Ok? && View(scripts) == Applied(View(old(scripts)), old(pending))
      ensures runDepth == 0 ==> Changes(pending) == Requeued(View(old(scripts)), old(pending))
      ensures Later(View(old(scripts)), View(scripts))
      decreases if runDepth == 0 then 2 else 0, 0, 0
    {
      hide Owned, TableOk, View, Applied, AppliedOne, QueueRefs, Requeued, Queues;
      LaterSelf(View(scripts));
      if runDepth > 0 {
        return Busy;
      }
      var ops := pending;
      FirstOps(View(scripts), ops);
      AppliedIsLater(View(scripts), ops);
      TakeQueue();
      for k := 0 to |ops|
        invariant Valid() && runDepth == 0 && old(subscribers) <= subscribers
        invariant held == old(held) + QueueRefs(ops[k..])
        invariant View(scripts) == Applied(View(old(scripts)), ops[..k])
        invariant Changes(pending) == Requeued(View(old(scripts)), ops[..k])
      {
        NextOp(View(old(scripts)), ops, k, old(held));
        ApplyOne(ops[k]);
      }
      NoOpsLeft(View(old(scripts)), ops, old(held));
      return Ok(INVALID_SCRIPT_ID);
    }

    /** For the queue as it stands: which promised ids the next safe point will keep. */
    lemma PromisesAtSafePoint(k: nat)
      requires Valid() && k < |pending| && pending[k].LoadOp?
      requires pending[k].id == TargetId(View(scripts), pending[k].name)
      ensures var v := View(scripts);
              TargetId(Applied(v, pending[..k]), pending[k].name) == pending[k].id
              <==> KeepsPromise(v, pending[..k], pending[k].name)
    {
      hide Owned, TableOk, View, TargetId, Applied, KeepsPromise, Unique;
      TableIsUnique(scripts, byName);
      QueuedPromiseKeptIff(View(scripts), pending, k);
    }

    /** The queue is emptied before anything runs; its chunks are held by the caller meanwhile. */
    method TakeQueue()
      requires Valid()
      modifies this`pending, this`held
      ensures Valid() && pending == [] && held == old(held) + QueueRefs(old(pending))
    {
      forall r: Ref ensures QueueRefs(pending)[r] == QueueOwns(pending, r) {
        QueueRefsCount(pending, r);
      }
      held := held + QueueRefs(pending);
      pending := [];
    }

    method ApplyOne(op: PendingOp)
      requires Valid() && runDepth == 0 && (op.LoadOp? ==> op.chunkRef in held)
      modifies this
      ensures Valid() && runDepth == 0 && old(subscribers) <= subscribers
      ensures held == old(held) - ChunkOf(op)
      ensures View(scripts) == AppliedOne(View(old(scripts)), op)
      ensures Changes(pending) ==
              Changes(old(pending)) + if op.LoadOp? then Queues(op.script, View(old(scripts))) else []
      decreases 1, if op.LoadOp? then ScriptSize(op.script) else 0, 3
    {
      hide Owned, TableOk, View, Activated, Removed, Queues;
      if op.UnloadOp? {
        var r := UnloadImmediate(op.id);
        assert Changes(pending) + [] == Changes(pending);
        return;
      }
      var ok := ApplyLoad(op.name, op.script, op.chunkRef);
    }

    /** Runs the queued chunk, releases it, and activates the result if there is one. */
    method ApplyLoad(name: string, script: Script, chunkRef: Ref) returns (ok: bool)
      requires Valid() && runDepth == 0 && chunkRef in held
      modifies this
      ensures Valid() && runDepth == 0 && old(subscribers) <= subscribers
      ensures held == old(held) - multiset{chunkRef}
      ensures ok <==> script.finished
      ensures Changes(pending) == Changes(old(pending)) + Queues(script, View(old(scripts)))
      ensures Changes(pending) == Changes(old(pending)) + Asked(script.acts, View(old(scripts)))
              <==> !script.limitHit || Asked(script.acts, View(old(scripts))) == []
      ensures View(scripts) == if ok then Activated(View(old(scripts)), name) else View(old(scripts))
      ensures if ok then Installed(old(scripts), scripts, name, TargetId(View(old(scripts)), name), old(registry))
              else TablesUntouched()
      decreases 1, ScriptSize(script), 2
    {
      hide Owned, TableOk, View, Activated, Queues, Changes, Asked, ScriptSize, Installed, TargetId;
      var moduleRef, envRef;
      ok, moduleRef, envRef := RunCompiledChunk(script);
      if !ok {
        Unref(chunkRef);
        return;
      }
      ActivateQueued(name, chunkRef, moduleRef, envRef, old(held));
      EntryInstalled(old(scripts), scripts, name, TargetId(View(old(scripts)), name), moduleRef, envRef, old(registry));
    }

    /** The compiled chunk is released before its result is activated. */
    method ActivateQueued(name: string, chunkRef: Ref, moduleRef: Ref, envRef: Ref, ghost others: multiset<Ref>)
      requires Valid() && moduleRef != envRef && chunkRef in others && held == others + multiset{moduleRef, envRef}
      modifies this`scripts, this`byName, this`registry, this`held
      ensures Valid() && held == others - multiset{chunkRef}
      ensures View(scripts) == Activated(View(old(scripts)), name)
      ensures var id := TargetId(View(old(scripts)), name);
              scripts == if id <= |old(scripts)| then old(scripts)[id - 1 := Entry(id, name, moduleRef, envRef)]
                         else old(scripts) + [Entry(id, name, moduleRef, envRef)]
    {
      hide Owned, TableOk, View, Activated;
      ReleaseChunk(others, chunkRef, moduleRef, envRef);
      Unref(chunkRef);
      var id := ActivateScript(name, moduleRef, envRef);
    }
  }

  function ChunkOf(op: PendingOp): multiset<Ref> {
    if op.LoadOp? then multiset{op.chunkRef} else multiset{}
  }

  lemma OwnedEnqueue(scripts: seq<Entry>, pending: seq<PendingOp>, subscribers: seq<Ref>, held: multiset<Ref>,
                     registry: set<Ref>, op: PendingOp)
    requires Owned(scripts, pending, subscribers, held, registry) && (op.LoadOp? ==> op.chunkRef in held)
    ensures Owned(scripts, pending + [op], subscribers, held - ChunkOf(op), registry)
  {
    forall r: Ref ensures QueueOwns(pending + [op], r) == QueueOwns(pending, r) + OpOwns(op, r) {
      AppendOp(pending, op, r);
    }
  }

  lemma OwnedAppend(scripts: seq<Entry>, pending: seq<PendingOp>, subscribers: seq<Ref>, held: multiset<Ref>,
                    registry: set<Ref>, e: Entry)
    requires Owned(scripts, pending, subscribers, held, registry) && e.moduleRef >= 0 && e.envRef >= 0
    requires e.moduleRef != e.envRef && (e.moduleRef as Ref) in held && (e.envRef as Ref) in held
    ensures Owned(scripts + [e], pending, subscribers, held - multiset{e.moduleRef as Ref, e.envRef as Ref}, registry)
  {
    var a, b: Ref := e.moduleRef, e.envRef;
    forall r: Ref
      ensures ScriptsOwn(scripts + [e], r) + (held - multiset{a, b})[r] == ScriptsOwn(scripts, r) + held[r]
    {
      AppendEntry(scripts, e, r);
      TakeBoth(held, a, b, r);
    }
    hide ScriptsOwn, QueueOwns, EntryOwns;
  }

  lemma TakeBoth(held: multiset<Ref>, a: Ref, b: Ref, r: Ref)
    requires a != b && a in held && b in held
    ensures (held - multiset{a, b})[r] + (if a == r then 1 else 0) + (if b == r then 1 else 0) == held[r]
  {
  }

  lemma OwnedSubscribe(scripts: seq<Entry>, pending: seq<PendingOp>, subscribers: seq<Ref>, held: multiset<Ref>,
                       registry: set<Ref>, r: Ref)
    requires Owned(scripts, pending, subscribers, held, registry) && r in held
    ensures Owned(scripts, pending, subscribers + [r], held - multiset{r}, registry)
  {
  }

  lemma AddThenDrop(h: multiset<Ref>, r: Ref)
    ensures r in h + multiset{r} && (h + multiset{r}) - multiset{r} == h
  {
  }

  lemma OwnedReplace(scripts: seq<Entry>, pending: seq<PendingOp>, subscribers: seq<Ref>, held: multiset<Ref>,
                     registry: set<Ref>, i: nat, e: Entry)
    requires Owned(scripts, pending, subscribers, held, registry)
    requires i < |scripts| && HoldsRefs(scripts[i]) && HoldsRefs(e)
    requires e.moduleRef != e.envRef && (e.moduleRef as Ref) in held && (e.envRef as Ref) in held
    ensures Owned(scripts[i := e], pending, subscribers,
                  held - multiset{e.moduleRef as Ref, e.envRef as Ref}
                  + multiset{scripts[i].moduleRef as Ref, scripts[i].envRef as Ref}, registry)
  {
    forall r: Ref
      ensures ScriptsOwn(scripts[i := e], r) + EntryOwns(scripts[i], r) == ScriptsOwn(scripts, r) + EntryOwns(e, r)
    {
      ReplaceEntry(scripts, i, e, r);
    }
  }

  function QueueRefs(ops: seq<PendingOp>): multiset<Ref> {
    if ops == [] then multiset{} else ChunkOf(ops[0]) + QueueRefs(ops[1..])
  }

  lemma FirstOps(v: seq<Slot>, ops: seq<PendingOp>)
    ensures Applied(v, ops[..0]) == v && ops[0..] == ops && Requeued(v, ops[..0]) == [] && Changes([]) == []
  {
  }

  lemma NextOp(v: seq<Slot>, ops: seq<PendingOp>, k: nat, h: multiset<Ref>)
    requires k < |ops|
    ensures Applied(v, ops[..k + 1]) == AppliedOne(Applied(v, ops[..k]), ops[k])
    ensures Requeued(v, ops[..k + 1])
            == Requeued(v, ops[..k]) + if ops[k].LoadOp? then Queues(ops[k].script, Applied(v, ops[..k])) else []
    ensures (h + QueueRefs(ops[k..])) - ChunkOf(ops[k]) == h + QueueRefs(ops[k + 1..])
    ensures ops[k].LoadOp? ==> ops[k].chunkRef in h + QueueRefs(ops[k..])
  {
    assert ops[..k + 1][..k] == ops[..k];
    assert ops[k..][1..] == ops[k + 1..];
    assert QueueRefs(ops[k..]) == ChunkOf(ops[k]) + QueueRefs(ops[k + 1..]);
  }

  lemma NoOpsLeft(v: seq<Slot>, ops: seq<PendingOp>, h: multiset<Ref>)
    ensures ops[..|ops|] == ops && h + QueueRefs(ops[|ops|..]) == h
  {
  }

  lemma ReleaseChunk(h: multiset<Ref>, c: Ref, m: Ref, e: Ref)
    requires c in h
    ensures ((h + multiset{m, e}) - multiset{c}) - multiset{m, e} == h - multiset{c}
    ensures m in (h + multiset{m, e}) - multiset{c} && e in (h + multiset{m, e}) - multiset{c}
  {
  }

  lemma DropBehind(h: multiset<Ref>, c: Ref, m: Ref, e: Ref)
    ensures c in (h + multiset{c}) + multiset{m, e}
    ensures ((h + multiset{c}) + multiset{m, e}) - multiset{c} == h + multiset{m, e}
  {
  }

  lemma AddThenTake(h: multiset<Ref>, a: Ref, b: Ref)
    ensures (h + multiset{a, b}) - multiset{a} - multiset{b} == h
    ensures a in h + multiset{a, b} && b in (h + multiset{a, b}) - multiset{a}
  {
  }

  lemma {:induction false} QueueRefsCount(ops: seq<PendingOp>, r: Ref)
    ensures QueueRefs(ops)[r] == QueueOwns(ops, r)
  {
    if ops == [] {
    } else {
      QueueRefsCount(ops[1..], r);
      FirstOp(ops, r);
    }
  }

  /** The name index finds what a scan of the table would. */
  lemma TargetOf(scripts: seq<Entry>, byName: map<string, ScriptId>, name: string)
    requires TableOk(scripts, byName)
    ensures TargetId(View(scripts), name) == if name in byName then byName[name] else |scripts| + 1
    ensures name in byName ==> 1 <= byName[name] <= |scripts|
    ensures name in byName ==> scripts[byName[name] - 1].name == name && HoldsRefs(scripts[byName[name] - 1])
  {
    var v, id := View(scripts), TargetId(View(scripts), name);
    assert Maps(byName, name, id) <==> NamedAt(v, name, id);
    if name in byName {
      assert Maps(byName, name, byName[name]);
      assert NamedAt(v, name, byName[name]);
    }
  }

  lemma TableIsUnique(scripts: seq<Entry>, byName: map<string, ScriptId>)
    requires TableOk(scripts, byName)
    ensures Unique(View(scripts))
  {
    var v := View(scripts);
    forall i, j | 0 <= i < j < |v| && v[i].loaded && v[j].loaded ensures v[i].name != v[j].name {
      assert NamedAt(v, v[i].name, i + 1) && NamedAt(v, v[j].name, j + 1);
      assert Maps(byName, v[i].name, i + 1) && Maps(byName, v[j].name, j + 1);
    }
  }

  predicate HoldsRefs(e: Entry) {
    e.moduleRef >= 0 && e.envRef >= 0
  }

  lemma LoadedHoldsRefs(scripts: seq<Entry>, byName: map<string, ScriptId>, i: nat)
    requires TableOk(scripts, byName) && i < |scripts| && scripts[i].moduleRef >= 0
    ensures HoldsRefs(scripts[i])
  {
  }

  lemma TableAppend(scripts: seq<Entry>, byName: map<string, ScriptId>, e: Entry)
    requires TableOk(scripts, byName) && e.id == |scripts| + 1 && e.name !in byName && e.moduleRef >= 0 && e.envRef >= 0
    ensures TableOk(scripts + [e], byName[e.name := e.id])
    ensures View(scripts + [e]) == View(scripts) + [Slot(e.name, true)]
  {
    var after, index := scripts + [e], byName[e.name := e.id];
    assert View(after) == View(scripts) + [Slot(e.name, true)];
    forall n, id ensures Maps(index, n, id) <==> NamedAt(View(after), n, id) {
      assert Maps(byName, n, id) <==> NamedAt(View(scripts), n, id);
    }
  }

  lemma TableVacate(scripts: seq<Entry>, byName: map<string, ScriptId>, i: nat, e: Entry)
    requires TableOk(scripts, byName) && i < |scripts| && scripts[i].moduleRef >= 0
    requires e == scripts[i].(moduleRef := -1, envRef := -1)
    ensures TableOk(scripts[i := e], byName - {scripts[i].name})
    ensures View(scripts[i := e]) == Removed(View(scripts), i + 1)
  {
    var after, index := scripts[i := e], byName - {scripts[i].name};
    assert View(after) == Removed(View(scripts), i + 1);
    assert NamedAt(View(scripts), scripts[i].name, i + 1);
    forall n, id ensures Maps(index, n, id) <==> NamedAt(View(after), n, id) {
      assert Maps(byName, n, id) <==> NamedAt(View(scripts), n, id);
      assert Maps(byName, n, i + 1) <==> NamedAt(View(scripts), n, i + 1);
    }
  }

  lemma {:induction false} RemoveOp(ops: seq<PendingOp>, i: nat, r: Ref)
    requires i < |ops|
    ensures QueueOwns(ops, r) == OpOwns(ops[i], r) + QueueOwns(ops[..i] + ops[i + 1..], r)
  {
    var rest := ops[..i] + ops[i + 1..];
    if i == |ops| - 1 {
      assert rest == ops[..|ops| - 1];
    } else {
      RemoveOp(ops[..|ops| - 1], i, r);
      assert rest[..|rest| - 1] == ops[..|ops| - 1][..i] + ops[..|ops| - 1][i + 1..];
    }
  }

  method FreshRef(s: set<Ref>) returns (n: Ref)
    ensures n !in s
  {
    n := 0;
    var todo := s;
    while todo != {}
      invariant todo <= s && forall r :: r in s && r !in todo ==> r < n
    {
      var r :| r in todo;
      todo := todo - {r};
      if n <= r {
        n := r + 1;
      }
    }
  }

  /**
   A host that loads a chunk which queues another load, runs into a limit and catches the error: the
   chunk is loaded, and nothing is queued.
   */
  method LimitCaughtOnHost(name: string, other: string) returns (host: ScriptContext)
    requires name != "" && other != ""
    ensures host.Valid() && View(host.scripts) == [Slot(name, true)] && Changes(host.pending) == []
    ensures |Asked([LoadAct(other, Script(true, [], true, false))], [])| == 1
  {
    hide Owned, TableOk;
    host := new ScriptContext();
    assert View(host.scripts) == [];
    var asks := LoadAct(other, Script(true, [], true, false));
    var r := host.Load(name, Script(true, [asks], true, true));
    assert [asks][..0] == [];
    assert Asked([asks], []) == Asked([], []) + AskedBy(asks, []);
  }
}
