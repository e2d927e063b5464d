/**
 The transitive closure of bulkId dependencies between the producing POSTs, computed by
 one breadth-first search per producer, and its meaning as reachability.
 */
module BulkClosure {
  import opened Text
  import opened BulkRequest

  type Graph = map<nat, set<nat>>

  ghost predicate IsPath(g: Graph, path: seq<nat>) {
    && path != []
    && forall k | 0 <= k < |path| - 1 :: path[k] in g && path[k + 1] in g[path[k]]
  }

  ghost predicate Reaches(g: Graph, a: nat, b: nat) {
    exists path :: IsPath(g, path) && path[0] == a && path[|path| - 1] == b
  }

  /** Edges lead from producers to producers. */
  ghost predicate Bounded(g: Graph) {
    forall v | v in g :: g[v] <= g.Keys
  }

  lemma ReachesSelf(g: Graph, a: nat)
    ensures Reaches(g, a, a)
  {
    assert IsPath(g, [a]);
  }

  lemma ReachesStep(g: Graph, a: nat, b: nat, c: nat)
    requires Reaches(g, a, b) && b in g && c in g[b]
    ensures Reaches(g, a, c)
  {
    var path :| IsPath(g, path) && path[0] == a && path[|path| - 1] == b;
    var longer := path + [c];
    assert IsPath(g, longer) && longer[0] == a && longer[|longer| - 1] == c;
  }

  lemma {:induction false} ReachesTrans(g: Graph, a: nat, b: nat, c: nat)
    requires Reaches(g, a, b) && Reaches(g, b, c)
    ensures Reaches(g, a, c)
  {
    var p :| IsPath(g, p) && p[0] == a && p[|p| - 1] == b;
    var q :| IsPath(g, q) && q[0] == b && q[|q| - 1] == c;
    var joined := p + q[1..];
    assert forall k | 0 <= k < |q| :: joined[|p| - 1 + k] == q[k];
    assert IsPath(g, joined);
    assert joined[0] == a && joined[|joined| - 1] == c;
  }

  /** A set that contains a and is closed under edges contains all that a reaches. */
  lemma {:induction false} ClosedHoldsPath(g: Graph, closed: set<nat>, path: seq<nat>, k: nat)
    requires IsPath(g, path) && k < |path| && path[0] in closed
    requires forall v | v in closed && v in g :: g[v] <= closed
    ensures path[k] in closed
  {
    if k > 0 {
      ClosedHoldsPath(g, closed, path, k - 1);
      assert path[k - 1 + 1] in g[path[k - 1]];
    }
  }

  /** What a reaches among the producers. */
  ghost function ReachSet(g: Graph, a: nat): (r: set<nat>)
    requires a in g
    ensures forall x :: x in r <==> x in g && Reaches(g, a, x)
  {
    set x | x in g && Reaches(g, a, x)
  }

  lemma ReachSetIsClosed(g: Graph, a: nat)
    requires a in g && Bounded(g)
    ensures a in ReachSet(g, a)
    ensures forall v | v in ReachSet(g, a) :: g[v] <= ReachSet(g, a)
    ensures forall b | b in ReachSet(g, a) :: ReachSet(g, b) <= ReachSet(g, a)
  {
    ReachesSelf(g, a);
    forall v, c | v in ReachSet(g, a) && c in g[v]
      ensures c in ReachSet(g, a)
    {
      ReachesStep(g, a, v, c);
    }
    forall b, c | b in ReachSet(g, a) && c in ReachSet(g, b)
      ensures c in ReachSet(g, a)
    {
      ReachesTrans(g, a, b, c);
    }
  }

  // ----- the search

  method Search(g: Graph, start: nat) returns (visited: set<nat>)
    requires start in g && Bounded(g)
    ensures visited == ReachSet(g, start)
  {
    visited := {start};
    var queue := [start];
    ReachesSelf(g, start);
    while queue != []
      invariant start in visited && visited <= ReachSet(g, start)
      invariant forall v | v in queue :: v in visited
      invariant forall v | v in visited && v !in queue :: g[v] <= visited
      decreases g.Keys - visited, |queue|
    {
      var curr := queue[0];
      ghost var queueBefore, visitedBefore := queue, visited;
      queue := queue[1..];
      assert forall v | v in queueBefore && v != curr :: v in queue;
      var next := g[curr];
      while next != {}
        invariant next <= g[curr] && g[curr] - next <= visited
        invariant visitedBefore <= visited <= ReachSet(g, start)
        invariant |queue| >= |queueBefore| - 1
        invariant visited == visitedBefore ==> queue == queueBefore[1..]
        invariant forall v | v in queue :: v in visited
        invariant forall v | v in visited && v !in queue && v != curr :: g[v] <= visited
        decreases next
      {
        var n :| n in next;
        next := next - {n};
        if n !in visited {
          ReachesStep(g, start, curr, n);
          assert n in g.Keys - visitedBefore;
          visited := visited + {n};
          ghost var q := queue;
          queue := queue + [n];
          assert forall v | v in q :: v in queue;
          assert n in queue;
        }
      }
      assert g.Keys - visited <= g.Keys - visitedBefore;
      assert visited != visitedBefore ==> exists x :: x in visited && x !in visitedBefore;
    }
    forall x | x in ReachSet(g, start)
      ensures x in visited
    {
      var path :| IsPath(g, path) && path[0] == start && path[|path| - 1] == x;
      ClosedHoldsPath(g, visited, path, |path| - 1);
    }
  }

  // ----- the dependency graph of a request

  /** The producers named by the tokens of one operation. */
  function Named(refs: seq<string>, producers: map<string, nat>): set<nat> {
    set r | r in refs && r in producers :: producers[r]
  }

  function DirectDeps(tasks: seq<Task>): (g: Graph)
    ensures g.Keys == Producers(tasks).Values && Bounded(g)
  {
    ProducersAreFirst(tasks);
    var producers := Producers(tasks);
    map p | p in producers.Values :: Named(tasks[p].refs, producers)
  }

  ghost function ClosureTable(tasks: seq<Task>): map<nat, set<nat>> {
    map p | p in DirectDeps(tasks) :: ReachSet(DirectDeps(tasks), p)
  }

  method ComputePostProducerClosure(tasks: seq<Task>, producers: map<string, nat>)
    returns (closure: map<nat, set<nat>>)
    requires producers == Producers(tasks)
    ensures closure == ClosureTable(tasks)
  {
    var g := DirectDeps(tasks);
    closure := map[];
    var todo := producers.Values;
    while todo != {}
      invariant todo <= g.Keys && closure.Keys == g.Keys - todo
      invariant forall p | p in closure :: closure[p] == ReachSet(g, p)
    {
      var p :| p in todo;
      var visited := Search(g, p);
      closure := closure[p := visited];
      todo := todo - {p};
    }
  }

  /** What the scheduler relies on: every producer is a POST and has its closed dependency set. */
  ghost predicate IsClosureOf(tasks: seq<Task>, producers: map<string, nat>, closure: map<nat, set<nat>>) {
    && closure.Keys == producers.Values
    && (forall p | p in closure :: p < |tasks| && tasks[p].post)
    && (forall p | p in closure :: p in closure[p] && closure[p] <= closure.Keys)
    && (forall p, q | p in closure && q in closure[p] :: closure[q] <= closure[p])
  }

  lemma ClosureTableIsClosure(tasks: seq<Task>)
    requires Sound(tasks)
    ensures IsClosureOf(tasks, Producers(tasks), ClosureTable(tasks))
  {
    var g, closure := DirectDeps(tasks), ClosureTable(tasks);
    ProducersAreFirst(tasks);
    forall p | p in g
      ensures p in closure[p] && closure[p] <= closure.Keys && forall q | q in closure[p] :: closure[q] <= closure[p]
    {
      ReachSetIsClosed(g, p);
    }
  }
}
