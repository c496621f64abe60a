/**
 The dependency self-check of the task generator: it builds a graph from the task list and runs
 a recursive three-colour depth-first search that reports every back edge as a loop.
 */
module DependencyCheck {
  import opened Basics

  type Id = string

  datatype Task = Task(id: Id, deps: seq<Id>)

  datatype Color = White | Gray | Black

  datatype Finding =
    | UnknownDependency(task: Id, dep: Id)
    | SelfDependency(task: Id)
    | CycleFound(loop: seq<Id>)

  type Graph = map<Id, seq<Id>>

  /** The adjacency dictionary; of two tasks with one id the later one stays. */
  function GraphOf(tasks: seq<Task>): Graph {
    if tasks == [] then map[]
    else
      var t := tasks[|tasks| - 1];
      GraphOf(tasks[..|tasks| - 1])[t.id := t.deps]
  }

  /** The findings of one task's dependency list. */
  function ListFindings(tid: Id, deps: seq<Id>, known: set<Id>): seq<Finding> {
    if deps == [] then []
    else
      var d := deps[|deps| - 1];
      ListFindings(tid, deps[..|deps| - 1], known)
      + (if d !in known then [UnknownDependency(tid, d)] else [])
      + (if d == tid then [SelfDependency(tid)] else [])
  }

  function DependencyFindings(tasks: seq<Task>, known: set<Id>): seq<Finding> {
    if tasks == [] then []
    else
      var t := tasks[|tasks| - 1];
      DependencyFindings(tasks[..|tasks| - 1], known) + ListFindings(t.id, t.deps, known)
  }

  // -------------------------------------------------------------------------
  // Graph vocabulary: independent of the search
  // -------------------------------------------------------------------------

  /** A declared dependency whose both ends are known tasks. */
  predicate Edge(g: Graph, a: Id, b: Id) {
    a in g && b in g && b in g[a]
  }

  predicate Walk(g: Graph, w: seq<Id>) {
    forall i :: 0 <= i < |w| - 1 ==> Edge(g, w[i], w[i + 1])
  }

  predicate ClosedWalk(g: Graph, w: seq<Id>) {
    |w| >= 2 && w[0] == w[|w| - 1] && Walk(g, w)
  }

  ghost predicate HasCycle(g: Graph) {
    exists w: seq<Id> :: ClosedWalk(g, w)
  }

  /** The edge a -> b closes one of the printed loops. */
  predicate Reported(errs: seq<Finding>, a: Id, b: Id) {
    exists i :: 0 <= i < |errs| && ClosedBy(errs[i], a, b)
  }

  predicate ClosedBy(f: Finding, a: Id, b: Id) {
    f.CycleFound? && |f.loop| >= 2 && f.loop[|f.loop| - 2] == a && f.loop[|f.loop| - 1] == b
  }

  predicate LoopsAreWalks(g: Graph, errs: seq<Finding>) {
    forall i :: 0 <= i < |errs| && errs[i].CycleFound? ==> ClosedWalk(g, errs[i].loop)
  }

  /** The graph that is left once the closing edge of every printed loop is deleted. */
  function WithoutReported(g: Graph, errs: seq<Finding>): Graph {
    map a | a in g :: Filter(g[a], b => !Reported(errs, a, b))
  }

  function Filter(s: seq<Id>, keep: Id -> bool): (r: seq<Id>)
    ensures forall x :: x in r <==> x in s && keep(x)
  {
    if s == [] then []
    else (if keep(s[0]) then [s[0]] else []) + Filter(s[1..], keep)
  }

  /**
   Finish order as a ranking: an edge out of a finished task leads to a task that finished
   earlier, unless the edge is in `back`.
   */
  ghost predicate Ranked(g: Graph, back: set<(Id, Id)>, rank: map<Id, nat>) {
    forall a, b :: a in rank && Edge(g, a, b) && (a, b) !in back ==> b in rank && rank[b] < rank[a]
  }

  ghost predicate AllReported(errs: seq<Finding>, back: set<(Id, Id)>) {
    forall a, b :: (a, b) in back ==> Reported(errs, a, b)
  }

  // -------------------------------------------------------------------------
  // The search
  // -------------------------------------------------------------------------

  class CycleChecker {
    const graph: Graph
    var color: map<Id, Color>
    var stackPath: seq<Id>
    var errs: seq<Finding>
    ghost var rank: map<Id, nat>        // finish time of every black task
    ghost var clock: nat
    ghost var back: set<(Id, Id)>       // the edges that closed a loop so far

    ghost predicate Valid()
      reads this
    {
      && color.Keys == graph.Keys
      && Distinct(stackPath)
      && (forall x :: x in stackPath <==> x in color && color[x] == Gray)
      && (forall x :: x in rank <==> x in color && color[x] == Black)
      && (forall x :: x in rank ==> rank[x] < clock)
      && Walk(graph, stackPath)
      && LoopsAreWalks(graph, errs)
      && Ranked(graph, back, rank)
      && AllReported(errs, back)
    }

    ghost function Whites(): set<Id>
      reads this
    {
      set x | x in color && color[x] == White
    }

    constructor (graph: Graph, errs: seq<Finding>)
      requires forall i :: 0 <= i < |errs| ==> !errs[i].CycleFound?
      ensures Valid()
      ensures this.graph == graph && this.errs == errs
      ensures stackPath == [] && Whites() == graph.Keys
    {
      this.graph := graph;
      this.errs := errs;
      color := map x | x in graph :: White;
      stackPath := [];
      rank, clock, back := map[], 0, {};
    }

    /** What a stretch of the search leaves alone: settled colours, and everything already recorded. */
    twostate predicate Extends()
      reads this
    {
      && color.Keys == old(color.Keys)
      && (forall x :: x in color && old(color[x]) != White ==> color[x] == old(color[x]))
      && old(errs) <= errs && old(back) <= back
      && (forall i :: |old(errs)| <= i < |errs| ==> errs[i].CycleFound?)
    }

    /** The edge u -> v needs no more work: v is unknown, finished, or the edge was reported. */
    ghost predicate Settled(u: Id, v: Id)
      reads this
    {
      v in color ==> (u, v) in back || color[v] == Black
    }

    method Dfs(u: Id)
      requires Valid() && u in color && color[u] == White
      requires stackPath == [] || Edge(graph, stackPath[|stackPath| - 1], u)
      modifies this
      ensures Valid() && Extends()
      ensures stackPath == old(stackPath)
      ensures color[u] == Black
      decreases Whites(), 1
    {
      hide Distinct, Walk, Edge, LoopsAreWalks, Ranked, AllReported;
      ghost var whites := Whites();
      Enter(u);
      assert u in whites && u !in Whites();
      VisitAll(u, if u in graph then graph[u] else []);
      Leave(u);
    }

    method VisitAll(u: Id, succ: seq<Id>)
      requires Valid() && u in graph && graph[u] == succ
      requires |stackPath| > 0 && stackPath[|stackPath| - 1] == u
      modifies this
      ensures Valid() && Extends()
      ensures stackPath == old(stackPath)
      ensures forall v :: v in succ ==> Settled(u, v)
      decreases Whites(), 3
    {
      hide Distinct, Walk, LoopsAreWalks, Ranked, AllReported;
      var k := 0;
      while k < |succ|
        invariant 0 <= k <= |succ|
        invariant Valid() && Extends()
        invariant stackPath == old(stackPath) && Whites() <= old(Whites())
        invariant forall v :: v in succ[..k] ==> Settled(u, v)
      {
        assert succ[..k + 1] == succ[..k] + [succ[k]];
        Visit(u, succ[k]);
        k := k + 1;
      }
      assert succ[..k] == succ;
    }

    /** One successor of the task on top of the path stack. */
    method Visit(u: Id, full: Id)
      requires Valid() && u in graph && full in graph[u]
      requires |stackPath| > 0 && stackPath[|stackPath| - 1] == u
      modifies this
      ensures Valid() && Extends()
      ensures stackPath == old(stackPath)
      ensures Whites() <= old(Whites())
      ensures Settled(u, full)
      decreases Whites(), 2
    {
      if full !in color {
      } else if color[full] == Gray {
        Report(u, full);
      } else if color[full] == White {
        Dfs(full);
      }
    }

    method Enter(u: Id)
      requires Valid() && u in color && color[u] == White
      requires stackPath == [] || Edge(graph, stackPath[|stackPath| - 1], u)
      modifies this`color, this`stackPath
      ensures Valid()
      ensures color == old(color)[u := Gray] && stackPath == old(stackPath) + [u]
    {
      color := color[u := Gray];
      stackPath := stackPath + [u];
    }

    method Leave(u: Id)
      requires Valid() && |stackPath| > 0 && stackPath[|stackPath| - 1] == u && u in graph
      requires forall v :: v in graph[u] ==> Settled(u, v)
      modifies this`color, this`stackPath, this`rank, this`clock
      ensures Valid()
      ensures color == old(color)[u := Black] && stackPath == old(stackPath)[..|old(stackPath)| - 1]
    {
      assert u in stackPath;
      stackPath := stackPath[..|stackPath| - 1];
      color := color[u := Black];
      rank, clock := rank[u := clock], clock + 1;
    }

    /** Prints the loop from the first occurrence of `full` on the path stack back to `full`. */
    method Report(u: Id, full: Id)
      requires Valid() && Edge(graph, u, full) && color[full] == Gray
      requires |stackPath| > 0 && stackPath[|stackPath| - 1] == u
      modifies this`errs, this`back
      ensures Valid()
      ensures back == old(back) + {(u, full)}
      ensures exists n :: 0 <= n < |stackPath| && stackPath[n] == full &&
                errs == old(errs) + [CycleFound(stackPath[n..] + [full])]
    {
      var n := 0;
      while stackPath[n] != full
        invariant 0 <= n < |stackPath| && full in stackPath[n..]
        decreases |stackPath| - n
      {
        n := n + 1;
      }
      var loop := stackPath[n..] + [full];
      assert ClosedWalk(graph, loop) by {
        forall i | 0 <= i < |loop| - 1 ensures Edge(graph, loop[i], loop[i + 1]) {
          if i < |loop| - 2 { assert loop[i] == stackPath[n + i]; }
        }
      }
      errs := errs + [CycleFound(loop)];
      back := back + {(u, full)};
      ReportedStays(old(errs), errs);
      assert ClosedBy(errs[|errs| - 1], u, full);
    }
  }

  lemma ReportedStays(before: seq<Finding>, after: seq<Finding>)
    requires before <= after
    ensures forall a, b :: Reported(before, a, b) ==> Reported(after, a, b)
  {
    forall a, b | Reported(before, a, b) ensures Reported(after, a, b) {
      var i :| 0 <= i < |before| && ClosedBy(before[i], a, b);
      assert after[i] == before[i];
    }
  }

  // -------------------------------------------------------------------------
  // The graph theorem
  // -------------------------------------------------------------------------

  lemma {:induction false} WalkDescends(g: Graph, back: set<(Id, Id)>, rank: map<Id, nat>, w: seq<Id>)
    requires Ranked(g, back, rank) && g.Keys <= rank.Keys
    requires Walk(g, w) && |w| >= 2
    requires forall i :: 0 <= i < |w| - 1 ==> (w[i], w[i + 1]) !in back
    ensures w[0] in rank && w[|w| - 1] in rank && rank[w[|w| - 1]] < rank[w[0]]
  {
    var m := |w| - 2;
    assert Edge(g, w[m], w[m + 1]);
    if |w| > 2 {
      var v := w[..|w| - 1];
      forall i | 0 <= i < |v| - 1 ensures Edge(g, v[i], v[i + 1]) && (v[i], v[i + 1]) !in back {
        assert Edge(g, w[i], w[i + 1]);
      }
      WalkDescends(g, back, rank, v);
    }
  }

  /** Every cycle of the graph passes over an edge of `back`. */
  lemma EveryCycleIsBroken(g: Graph, back: set<(Id, Id)>, rank: map<Id, nat>, w: seq<Id>)
    requires Ranked(g, back, rank) && g.Keys <= rank.Keys
    requires ClosedWalk(g, w)
    ensures exists i :: 0 <= i < |w| - 1 && (w[i], w[i + 1]) in back
  {
    if forall i :: 0 <= i < |w| - 1 ==> (w[i], w[i + 1]) !in back {
      WalkDescends(g, back, rank, w);
    }
  }

  /** Deleting the reported edges leaves a graph without cycles. */
  lemma WithoutReportedIsAcyclic(g: Graph, errs: seq<Finding>, back: set<(Id, Id)>, rank: map<Id, nat>)
    requires Ranked(g, back, rank) && g.Keys <= rank.Keys && AllReported(errs, back)
    ensures !HasCycle(WithoutReported(g, errs))
  {
    var g' := WithoutReported(g, errs);
    if w: seq<Id> :| ClosedWalk(g', w) {
      forall i | 0 <= i < |w| - 1 ensures Edge(g, w[i], w[i + 1]) && !Reported(errs, w[i], w[i + 1]) {
        assert Edge(g', w[i], w[i + 1]);
      }
      EveryCycleIsBroken(g, back, rank, w);
    }
  }

  /** What the finished search means for the graph. */
  lemma SearchDecidesCycles(g: Graph, errs: seq<Finding>, back: set<(Id, Id)>, rank: map<Id, nat>)
    requires Ranked(g, back, rank) && g.Keys <= rank.Keys
    requires AllReported(errs, back) && LoopsAreWalks(g, errs)
    ensures HasCycle(g) <==> exists i :: 0 <= i < |errs| && errs[i].CycleFound?
  {
    if HasCycle(g) {
      var w: seq<Id> :| ClosedWalk(g, w);
      EveryCycleIsBroken(g, back, rank, w);
      var i :| 0 <= i < |w| - 1 && (w[i], w[i + 1]) in back;
      assert Reported(errs, w[i], w[i + 1]);
    }
  }

  lemma {:induction false} GraphKeys(tasks: seq<Task>, k: nat)
    requires k <= |tasks|
    ensures GraphOf(tasks[..k]).Keys == set i | 0 <= i < k :: tasks[i].id
  {
    if k == 0 {
    } else {
      GraphKeys(tasks, k - 1);
      assert tasks[..k][..k - 1] == tasks[..k - 1];
    }
  }

  // -------------------------------------------------------------------------
  // The same in terms of the task list
  // -------------------------------------------------------------------------

  /** Is task i the last one with this id? */
  predicate LastWith(tasks: seq<Task>, i: nat, id: Id) {
    i < |tasks| && tasks[i].id == id && forall j :: i < j < |tasks| ==> tasks[j].id != id
  }

  predicate IsTask(tasks: seq<Task>, id: Id) {
    exists i :: 0 <= i < |tasks| && tasks[i].id == id
  }

  /** The last task with id a lists b, and there is a task with id b. */
  predicate DependsOn(tasks: seq<Task>, a: Id, b: Id) {
    IsTask(tasks, b) && exists i :: 0 <= i < |tasks| && LastWith(tasks, i, a) && b in tasks[i].deps
  }

  /** A way along dependencies that comes back to its start. */
  predicate Circular(tasks: seq<Task>, w: seq<Id>) {
    |w| >= 2 && w[0] == w[|w| - 1] && forall i :: 0 <= i < |w| - 1 ==> DependsOn(tasks, w[i], w[i + 1])
  }

  /** Does some task with this id list d? */
  predicate Lists(tasks: seq<Task>, id: Id, d: Id) {
    exists i :: 0 <= i < |tasks| && tasks[i].id == id && d in tasks[i].deps
  }

  lemma {:induction false} LastListed(tasks: seq<Task>, i: nat, id: Id)
    requires LastWith(tasks, i, id)
    ensures id in GraphOf(tasks) && GraphOf(tasks)[id] == tasks[i].deps
  {
    var n := |tasks| - 1;
    if i < n {
      LastListed(tasks[..n], i, id);
    }
  }

  lemma {:induction false} HasLast(tasks: seq<Task>, id: Id) returns (i: nat)
    requires IsTask(tasks, id)
    ensures LastWith(tasks, i, id)
  {
    var n := |tasks| - 1;
    if tasks[n].id == id {
      i := n;
    } else {
      var j :| 0 <= j < |tasks| && tasks[j].id == id;
      assert tasks[..n][j].id == id;
      i := HasLast(tasks[..n], id);
      assert forall k :: 0 <= k < n ==> tasks[..n][k] == tasks[k];
    }
  }

  /** The edges of the graph are the dependencies between tasks. */
  lemma EdgeIff(tasks: seq<Task>, a: Id, b: Id)
    ensures Edge(GraphOf(tasks), a, b) <==> DependsOn(tasks, a, b)
  {
    hide GraphOf;
    GraphKeys(tasks, |tasks|);
    assert tasks[..|tasks|] == tasks;
    if IsTask(tasks, a) {
      var i := HasLast(tasks, a);
      LastListed(tasks, i, a);
      assert forall j :: 0 <= j < |tasks| && LastWith(tasks, j, a) ==> j == i;
    }
  }

  lemma CircularIff(tasks: seq<Task>, w: seq<Id>)
    ensures ClosedWalk(GraphOf(tasks), w) <==> Circular(tasks, w)
  {
    hide GraphOf, Edge, DependsOn;
    forall a: Id, b: Id ensures Edge(GraphOf(tasks), a, b) <==> DependsOn(tasks, a, b) {
      EdgeIff(tasks, a, b);
    }
  }

  lemma EveryLoopIsListed(tasks: seq<Task>)
    ensures HasCycle(GraphOf(tasks)) <==> exists w: seq<Id> :: Circular(tasks, w)
  {
    hide GraphOf, ClosedWalk, Circular;
    forall w: seq<Id> ensures ClosedWalk(GraphOf(tasks), w) <==> Circular(tasks, w) {
      CircularIff(tasks, w);
    }
  }

  /** One finding after the other, dependency by dependency: first the unknown one, then the task itself. */
  lemma {:induction false} ListFindingsAre(tid: Id, front: seq<Id>, d: Id, behind: seq<Id>, known: set<Id>)
    ensures ListFindings(tid, [], known) == []
    ensures ListFindings(tid, front + [d] + behind, known)
            == ListFindings(tid, front, known)
               + (if d in known then [] else [UnknownDependency(tid, d)])
               + (if d == tid then [SelfDependency(tid)] else [])
               + ListFindings(tid, behind, known)
  {
    var deps := front + [d] + behind;
    if |behind| == 0 {
      assert deps[..|deps| - 1] == front;
    } else {
      var n := |behind| - 1;
      assert deps[..|deps| - 1] == front + [d] + behind[..n];
      ListFindingsAre(tid, front, d, behind[..n], known);
    }
  }

  /** Task by task, in the order of the list. */
  lemma {:induction false} TaskFindingsAre(front: seq<Task>, t: Task, behind: seq<Task>, known: set<Id>)
    ensures DependencyFindings([], known) == []
    ensures DependencyFindings(front + [t] + behind, known)
            == DependencyFindings(front, known) + ListFindings(t.id, t.deps, known) + DependencyFindings(behind, known)
  {
    hide ListFindings;
    var tasks := front + [t] + behind;
    if |behind| == 0 {
      assert tasks[..|tasks| - 1] == front;
    } else {
      var n := |behind| - 1;
      assert tasks[..|tasks| - 1] == front + [t] + behind[..n];
      TaskFindingsAre(front, t, behind[..n], known);
    }
  }

  lemma {:induction false} ListFindingsIn(tid: Id, deps: seq<Id>, known: set<Id>, t: Id, d: Id)
    ensures UnknownDependency(t, d) in ListFindings(tid, deps, known) <==> t == tid && d in deps && d !in known
    ensures SelfDependency(t) in ListFindings(tid, deps, known) <==> t == tid && t in deps
  {
    if |deps| == 0 {
    } else {
      ListFindingsIn(tid, deps[..|deps| - 1], known, t, d);
      assert deps == deps[..|deps| - 1] + [deps[|deps| - 1]];
    }
  }

  /** Unknown dependencies and self dependencies are found exactly where a task lists them. */
  lemma {:induction false} FindingsIn(tasks: seq<Task>, known: set<Id>, t: Id, d: Id)
    ensures UnknownDependency(t, d) in DependencyFindings(tasks, known) <==> Lists(tasks, t, d) && d !in known
    ensures SelfDependency(t) in DependencyFindings(tasks, known) <==> Lists(tasks, t, t)
  {
    hide ListFindings;
    if |tasks| == 0 {
    } else {
      var n := |tasks| - 1;
      FindingsIn(tasks[..n], known, t, d);
      ListFindingsIn(tasks[n].id, tasks[n].deps, known, t, d);
      OneTaskMore(tasks, t, d);
      OneTaskMore(tasks, t, t);
    }
  }

  lemma OneTaskMore(tasks: seq<Task>, t: Id, d: Id)
    requires |tasks| > 0
    ensures var n := |tasks| - 1;
            Lists(tasks, t, d) <==> Lists(tasks[..n], t, d) || (t == tasks[n].id && d in tasks[n].deps)
  {
    var n := |tasks| - 1;
    assert forall k :: 0 <= k < n ==> tasks[..n][k] == tasks[k];
    if Lists(tasks[..n], t, d) {
      var i :| 0 <= i < n && tasks[..n][i].id == t && d in tasks[..n][i].deps;
      assert tasks[i].id == t;
    }
    if t == tasks[n].id && d in tasks[n].deps {
      assert tasks[n].id == t;
    }
  }

  /** The findings of a finished check, in terms of the tasks. */
  lemma FindingsMean(tasks: seq<Task>, errs: seq<Finding>, t: Id, d: Id)
    requires var known := GraphOf(tasks).Keys;
             var listed := DependencyFindings(tasks, known);
             listed <= errs && forall i :: |listed| <= i < |errs| ==> errs[i].CycleFound?
    ensures UnknownDependency(t, d) in errs <==> Lists(tasks, t, d) && !IsTask(tasks, d)
    ensures SelfDependency(t) in errs <==> Lists(tasks, t, t)
  {
    hide GraphOf, DependencyFindings;
    var listed := DependencyFindings(tasks, GraphOf(tasks).Keys);
    GraphKeys(tasks, |tasks|);
    assert tasks[..|tasks|] == tasks;
    FindingsIn(tasks, GraphOf(tasks).Keys, t, d);
    assert errs == listed + errs[|listed|..];
  }

  method ReadList(tid: Id, deps: seq<Id>, known: set<Id>) returns (errs: seq<Finding>)
    ensures errs == ListFindings(tid, deps, known)
    ensures forall i :: 0 <= i < |errs| ==> !errs[i].CycleFound?
  {
    errs := [];
    for j := 0 to |deps|
      invariant errs == ListFindings(tid, deps[..j], known)
      invariant forall i :: 0 <= i < |errs| ==> !errs[i].CycleFound?
    {
      var d := deps[j];
      assert deps[..j + 1][..j] == deps[..j];
      if d !in known {
        errs := errs + [UnknownDependency(tid, d)];
      }
      if d == tid {
        errs := errs + [SelfDependency(tid)];
      }
    }
    assert deps[..|deps|] == deps;
  }

  /** The first pass: fills the adjacency dictionary and records bad dependency entries. */
  method ReadDependencies(tasks: seq<Task>, known: set<Id>) returns (graph: Graph, errs: seq<Finding>)
    ensures graph == GraphOf(tasks)
    ensures forall id, i: nat :: LastWith(tasks, i, id) ==> id in graph && graph[id] == tasks[i].deps
    ensures errs == DependencyFindings(tasks, known)
    ensures forall i :: 0 <= i < |errs| ==> !errs[i].CycleFound?
  {
    errs := [];
    graph := map[];
    for n := 0 to |tasks|
      invariant errs == DependencyFindings(tasks[..n], known)
      invariant forall i :: 0 <= i < |errs| ==> !errs[i].CycleFound?
      invariant graph == GraphOf(tasks[..n])
    {
      var t := tasks[n];
      var listed := ReadList(t.id, t.deps, known);
      errs := errs + listed;
      assert tasks[..n + 1][..n] == tasks[..n];
      graph := graph[t.id := t.deps];
    }
    assert tasks[..|tasks|] == tasks;
    forall id, i: nat | LastWith(tasks, i, id) ensures id in graph && graph[id] == tasks[i].deps {
      LastListed(tasks, i, id);
    }
  }

  /** The driver loop: after it every task is black and the path stack is empty. */
  method SearchAll(checker: CycleChecker, ids: seq<Id>)
    requires checker.Valid() && checker.stackPath == []
    requires forall x :: x in ids <==> x in checker.graph
    modifies checker
    ensures checker.Valid() && checker.stackPath == []
    ensures forall x :: x in checker.graph ==> checker.color[x] == Black
    ensures old(checker.errs) <= checker.errs
    ensures forall i :: |old(checker.errs)| <= i < |checker.errs| ==> checker.errs[i].CycleFound?
  {
    hide Distinct, Walk, Edge, LoopsAreWalks, Ranked, AllReported;
    ghost var listed := |checker.errs|;
    for n := 0 to |ids|
      invariant checker.Valid() && checker.stackPath == []
      invariant old(checker.errs) <= checker.errs
      invariant forall i :: listed <= i < |checker.errs| ==> checker.errs[i].CycleFound?
      invariant forall j :: 0 <= j < n ==> checker.color[ids[j]] == Black
    {
      assert ids[n] in checker.color;
      if checker.color[ids[n]] == White {
        checker.Dfs(ids[n]);
      }
    }
  }

  /** What a finished search says about the tasks. */
  lemma CheckMeans(tasks: seq<Task>, errs: seq<Finding>, back: set<(Id, Id)>, rank: map<Id, nat>)
    requires var g := GraphOf(tasks);
             var listed := DependencyFindings(tasks, g.Keys);
             && listed <= errs && (forall i :: |listed| <= i < |errs| ==> errs[i].CycleFound?)
             && rank.Keys == g.Keys && Ranked(g, back, rank) && AllReported(errs, back) && LoopsAreWalks(g, errs)
    ensures forall t, d :: UnknownDependency(t, d) in errs <==> Lists(tasks, t, d) && !IsTask(tasks, d)
    ensures forall t :: SelfDependency(t) in errs <==> Lists(tasks, t, t)
    ensures forall loop :: CycleFound(loop) in errs ==> Circular(tasks, loop)
    ensures forall w :: Circular(tasks, w) ==> exists i :: 0 <= i < |w| - 1 && Reported(errs, w[i], w[i + 1])
    ensures (exists loop :: CycleFound(loop) in errs) <==> (exists w :: Circular(tasks, w))
  {
    hide GraphOf, DependencyFindings, Ranked, Lists, IsTask, ClosedWalk, Circular;
    forall t, d ensures UnknownDependency(t, d) in errs <==> Lists(tasks, t, d) && !IsTask(tasks, d) {
      FindingsMean(tasks, errs, t, d);
    }
    forall t ensures SelfDependency(t) in errs <==> Lists(tasks, t, t) {
      FindingsMean(tasks, errs, t, t);
    }
    forall w ensures ClosedWalk(GraphOf(tasks), w) <==> Circular(tasks, w) {
      CircularIff(tasks, w);
    }
    forall w | Circular(tasks, w) ensures exists i :: 0 <= i < |w| - 1 && Reported(errs, w[i], w[i + 1]) {
      EveryCycleIsBroken(GraphOf(tasks), back, rank, w);
      var i :| 0 <= i < |w| - 1 && (w[i], w[i + 1]) in back;
      assert Reported(errs, w[i], w[i + 1]);
    }
    SearchDecidesCycles(GraphOf(tasks), errs, back, rank);
    EveryLoopIsListed(tasks);
  }

  /** The whole self-check: dependency lists first, then the search from every white task. */
  method Check(tasks: seq<Task>) returns (errs: seq<Finding>)
    ensures var listed := DependencyFindings(tasks, set i | 0 <= i < |tasks| :: tasks[i].id);
            listed <= errs && forall i :: |listed| <= i < |errs| ==> errs[i].CycleFound?
    ensures forall t, d :: UnknownDependency(t, d) in errs <==> Lists(tasks, t, d) && !IsTask(tasks, d)
    ensures forall t :: SelfDependency(t) in errs <==> Lists(tasks, t, t)
    ensures forall loop :: CycleFound(loop) in errs ==> Circular(tasks, loop)
    ensures forall w :: Circular(tasks, w) ==> exists i :: 0 <= i < |w| - 1 && Reported(errs, w[i], w[i + 1])
    ensures (exists loop :: CycleFound(loop) in errs) <==> (exists w :: Circular(tasks, w))
    ensures !HasCycle(WithoutReported(GraphOf(tasks), errs))
  {
    hide DependencyFindings, Ranked, AllReported, LoopsAreWalks, HasCycle, WithoutReported;
    var ids := seq(|tasks|, i requires 0 <= i < |tasks| => tasks[i].id);
    var known := set i | 0 <= i < |tasks| :: tasks[i].id;
    var graph, listed := ReadDependencies(tasks, known);
    GraphKeys(tasks, |tasks|);
    assert tasks[..|tasks|] == tasks;
    var checker := new CycleChecker(graph, listed);
    assert forall i :: 0 <= i < |tasks| ==> ids[i] == tasks[i].id;
    SearchAll(checker, ids);
    errs := checker.errs;
    WithoutReportedIsAcyclic(graph, errs, checker.back, checker.rank);
    CheckMeans(tasks, errs, checker.back, checker.rank);
  }
}
