/**
 From a bulk request to its execution order: the waits of each operation, the arrays the
 scheduler keeps, its loop, and what the order guarantees in terms of the request.
 */
module BulkOrder {
  import opened Text
  import opened BulkRequest
  import opened BulkClosure
  import opened BulkSchedule

  // ----- what each operation waits for

  /**
   What operation i waits for because it names the producer: the producer, and unless i
   takes part in the producer's own dependencies, all of those.
   */
  function Sources(closure: map<nat, set<nat>>, i: nat, producer: nat): set<nat>
    requires producer in closure
  {
    {producer} + if i in closure[producer] then {} else closure[producer]
  }

  function RefSources(producers: map<string, nat>, closure: map<nat, set<nat>>, i: nat, refs: seq<string>): set<nat>
    requires producers.Values == closure.Keys
  {
    if refs == [] then {}
    else
      var r := refs[|refs| - 1];
      RefSources(producers, closure, i, refs[..|refs| - 1])
      + if r in producers then Sources(closure, i, producers[r]) else {}
  }

  /** The previous operation on the same resource, if any. */
  function PathSource(tasks: seq<Task>, i: nat): set<nat>
    requires i < |tasks|
  {
    match tasks[i].key
    case None => {}
    case Some(key) => OptionSet(LastOn(tasks, key, i))
  }

  function Preds(tasks: seq<Task>, producers: map<string, nat>, closure: map<nat, set<nat>>, i: nat): set<nat>
    requires i < |tasks| && producers.Values == closure.Keys
  {
    PathSource(tasks, i) + RefSources(producers, closure, i, tasks[i].refs) - {i}
  }

  function WaitsOf(tasks: seq<Task>, producers: map<string, nat>, closure: map<nat, set<nat>>): (w: Waits)
    requires producers.Values == closure.Keys
    ensures |w| == |tasks| && forall i | 0 <= i < |tasks| :: w[i] == Preds(tasks, producers, closure, i)
  {
    seq(|tasks|, i requires 0 <= i < |tasks| => Preds(tasks, producers, closure, i))
  }

  function PostsOf(tasks: seq<Task>): (posts: seq<bool>)
    ensures |posts| == |tasks| && forall i | 0 <= i < |tasks| :: posts[i] == tasks[i].post
  {
    seq(|tasks|, i requires 0 <= i < |tasks| => tasks[i].post)
  }

  lemma {:induction false} RefSourcesMeaning(producers: map<string, nat>, closure: map<nat, set<nat>>, i: nat, refs: seq<string>)
    requires producers.Values == closure.Keys
    ensures forall r | r in refs && r in producers :: Sources(closure, i, producers[r]) <= RefSources(producers, closure, i, refs)
    ensures forall p | p in RefSources(producers, closure, i, refs) ::
              exists r :: r in refs && r in producers && p in Sources(closure, i, producers[r])
  {
    if refs != [] {
      RefSourcesMeaning(producers, closure, i, refs[..|refs| - 1]);
    }
  }

  lemma PredsArePostsOrEarlier(tasks: seq<Task>, producers: map<string, nat>, closure: map<nat, set<nat>>, i: nat, u: nat)
    requires IsClosureOf(tasks, producers, closure) && i < |tasks|
    requires u in Preds(tasks, producers, closure, i)
    ensures u != i && u < |tasks| && (tasks[u].post || u < i)
  {
    if u !in PathSource(tasks, i) {
      RefSourcesMeaning(producers, closure, i, tasks[i].refs);
      var r :| r in tasks[i].refs && r in producers && u in Sources(closure, i, producers[r]);
      assert u in closure.Keys;
    }
  }

  lemma WaitsAreWellFormed(tasks: seq<Task>, producers: map<string, nat>, closure: map<nat, set<nat>>)
    requires IsClosureOf(tasks, producers, closure)
    ensures WellFormed(WaitsOf(tasks, producers, closure))
    ensures OnlyPostsCycle(WaitsOf(tasks, producers, closure), PostsOf(tasks))
  {
    var w := WaitsOf(tasks, producers, closure);
    forall i | 0 <= i < |tasks|
      ensures i !in w[i] && forall u | u in w[i] :: u < |tasks| && (tasks[u].post || u < i)
    {
      assert w[i] == Preds(tasks, producers, closure, i);
      forall u | u in w[i]
        ensures u < |tasks| && (tasks[u].post || u < i)
      {
        PredsArePostsOrEarlier(tasks, producers, closure, i, u);
      }
    }
  }

  // ----- the scheduler's arrays

  /** dependents is the inverse of w without repetition, and inDegree counts w. */
  ghost predicate Counts(w: Waits, dependents: seq<seq<nat>>, inDegree: seq<nat>) {
    && |dependents| == |inDegree| == |w|
    && (forall v | 0 <= v < |w| :: inDegree[v] == |w[v]|)
    && (forall u | 0 <= u < |w| :: Distinct(dependents[u]))
    && (forall u: nat, v: nat | u < |w| :: Inverse(w, dependents, u, v))
  }

  predicate Inverse(w: Waits, dependents: seq<seq<nat>>, u: nat, v: nat)
    requires u < |dependents|
  {
    v in dependents[u] <==> v < |w| && u in w[v]
  }

  lemma CountsAddEdge(w: Waits, d: seq<seq<nat>>, n: seq<nat>, from: nat, to: nat)
    requires Counts(w, d, n) && from < |w| && to < |w| && from !in w[to]
    ensures Counts(w[to := w[to] + {from}], d[from := d[from] + [to]], n[to := n[to] + 1])
  {
    var w', d', n' := w[to := w[to] + {from}], d[from := d[from] + [to]], n[to := n[to] + 1];
    assert Inverse(w, d, from, to);
    assert to !in d[from];
    forall u: nat, v: nat | u < |w|
      ensures Inverse(w', d', u, v)
    {
      assert Inverse(w, d, u, v);
      assert v in d[from] + [to] <==> v in d[from] || v == to;
    }
    forall u | 0 <= u < |w|
      ensures Distinct(d'[u])
    {
      assert Distinct(d[u]);
      if u == from {
        DistinctSnoc(d[from], to);
      }
    }
    forall v | 0 <= v < |w|
      ensures n'[v] == |w'[v]|
    {
      assert n[v] == |w[v]|;
    }
  }

  lemma DistinctSnoc(s: seq<nat>, x: nat)
    requires Distinct(s) && x !in s
    ensures Distinct(s + [x])
  {
  }

  method AddEdge(dependents: array<seq<nat>>, inDegree: array<nat>, ghost w: Waits, from: nat, to: nat, seen: set<nat>)
    returns (seen': set<nat>)
    requires from < |w| && to < |w| && Counts(w[to := seen], dependents[..], inDegree[..])
    modifies dependents, inDegree
    ensures seen' == seen + ({from} - {to})
    ensures Counts(w[to := seen'], dependents[..], inDegree[..])
  {
    seen' := seen;
    ghost var d, n := dependents[..], inDegree[..];
    if from != to && from !in seen {
      CountsAddEdge(w[to := seen], d, n, from, to);
      seen' := seen + {from};
      dependents[from] := dependents[from] + [to];
      inDegree[to] := inDegree[to] + 1;
      assert dependents[..] == d[from := d[from] + [to]];
      assert inDegree[..] == n[to := n[to] + 1];
      assert w[to := seen][to := seen'] == w[to := seen'];
    } else {
      assert seen' == seen + ({from} - {to});
    }
  }

  /** Adds the edges into operation i that its references call for. */
  method AddRefEdges(producers: map<string, nat>, closure: map<nat, set<nat>>, i: nat, refs: seq<string>,
                     dependents: array<seq<nat>>, inDegree: array<nat>, ghost w: Waits, seen: set<nat>)
    returns (seen': set<nat>)
    requires producers.Values == closure.Keys && i < |w|
    requires forall p | p in closure :: p < |w| && closure[p] <= closure.Keys
    requires Counts(w[i := seen], dependents[..], inDegree[..])
    modifies dependents, inDegree
    ensures seen' == seen + (RefSources(producers, closure, i, refs) - {i})
    ensures Counts(w[i := seen'], dependents[..], inDegree[..])
  {
    seen' := seen;
    for k := 0 to |refs|
      invariant seen' == seen + (RefSources(producers, closure, i, refs[..k]) - {i})
      invariant Counts(w[i := seen'], dependents[..], inDegree[..])
    {
      assert refs[..k + 1][..k] == refs[..k];
      if refs[k] in producers {
        seen' := AddSourceEdges(closure, i, producers[refs[k]], dependents, inDegree, w, seen');
      }
    }
    assert refs[..|refs|] == refs;
  }

  method AddSourceEdges(closure: map<nat, set<nat>>, i: nat, producer: nat,
                        dependents: array<seq<nat>>, inDegree: array<nat>, ghost w: Waits, seen: set<nat>)
    returns (seen': set<nat>)
    requires producer in closure && i < |w|
    requires forall p | p in closure :: p < |w| && closure[p] <= closure.Keys
    requires Counts(w[i := seen], dependents[..], inDegree[..])
    modifies dependents, inDegree
    ensures seen' == seen + (Sources(closure, i, producer) - {i})
    ensures Counts(w[i := seen'], dependents[..], inDegree[..])
  {
    seen' := AddEdge(dependents, inDegree, w, producer, i, seen);
    if i !in closure[producer] {
      var todo := closure[producer];
      while todo != {}
        invariant todo <= closure[producer]
        invariant seen' == seen + ({producer} + (closure[producer] - todo) - {i})
        invariant Counts(w[i := seen'], dependents[..], inDegree[..])
      {
        var p :| p in todo;
        todo := todo - {p};
        seen' := AddEdge(dependents, inDegree, w, p, i, seen');
      }
    }
  }

  ghost predicate IsLastTable(tasks: seq<Task>, last: map<string, nat>, i: nat)
    requires i <= |tasks|
  {
    forall key :: LastOn(tasks, key, i) == if key in last then Some(last[key]) else None
  }

  lemma LastTableGrows(tasks: seq<Task>, last: map<string, nat>, i: nat)
    requires i < |tasks| && IsLastTable(tasks, last, i)
    ensures IsLastTable(tasks, if tasks[i].key.Some? then last[tasks[i].key.value := i] else last, i + 1)
  {
    var last' := if tasks[i].key.Some? then last[tasks[i].key.value := i] else last;
    forall key
      ensures LastOn(tasks, key, i + 1) == if key in last' then Some(last'[key]) else None
    {
      assert LastOn(tasks, key, i) == if key in last then Some(last[key]) else None;
    }
  }

  function OptionSet(o: Option<nat>): set<nat> {
    match o case None => {} case Some(j) => {j}
  }

  /** Adds the edge from the previous operation on the same resource. */
  method AddPathEdge(i: nat, previous: Option<nat>, dependents: array<seq<nat>>, inDegree: array<nat>, ghost w: Waits)
    returns (seen: set<nat>)
    requires i < |w| && w[i] == {} && (previous.Some? ==> previous.value < |w|)
    requires Counts(w, dependents[..], inDegree[..])
    modifies dependents, inDegree
    ensures seen == OptionSet(previous) - {i}
    ensures Counts(w[i := seen], dependents[..], inDegree[..])
  {
    seen := {};
    assert w[i := seen] == w;
    if previous.Some? {
      seen := AddEdge(dependents, inDegree, w, previous.value, i, seen);
    }
  }

  /** Adds all edges into operation i. */
  method AddOperation(producers: map<string, nat>, closure: map<nat, set<nat>>, i: nat, previous: Option<nat>,
                      refs: seq<string>, dependents: array<seq<nat>>, inDegree: array<nat>, ghost w: Waits)
    requires producers.Values == closure.Keys && i < |w| && w[i] == {}
    requires forall p | p in closure :: p < |w| && closure[p] <= closure.Keys
    requires previous.Some? ==> previous.value < |w|
    requires Counts(w, dependents[..], inDegree[..])
    modifies dependents, inDegree
    ensures Counts(w[i := OptionSet(previous) + RefSources(producers, closure, i, refs) - {i}], dependents[..], inDegree[..])
  {
    var seen := AddPathEdge(i, previous, dependents, inDegree, w);
    seen := AddRefEdges(producers, closure, i, refs, dependents, inDegree, w, seen);
    MinusOnce(OptionSet(previous), RefSources(producers, closure, i, refs), i);
  }

  lemma MinusOnce(a: set<nat>, b: set<nat>, i: nat)
    ensures (a - {i}) + (b - {i}) == a + b - {i}
  {
  }

  function Previous(tasks: seq<Task>, last: map<string, nat>, i: nat): (previous: Option<nat>)
    requires i < |tasks| && IsLastTable(tasks, last, i)
    ensures OptionSet(previous) == PathSource(tasks, i)
    ensures previous.Some? ==> previous.value < i
  {
    if tasks[i].key.Some? && tasks[i].key.value in last then
      assert LastOn(tasks, tasks[i].key.value, i) == Some(last[tasks[i].key.value]);
      Some(last[tasks[i].key.value])
    else None
  }

  /** Adds all edges into operation i and notes it as the last on its resource. */
  method AddNext(tasks: seq<Task>, producers: map<string, nat>, closure: map<nat, set<nat>>, lastOpForResource: map<string, nat>,
                 i: nat, dependents: array<seq<nat>>, inDegree: array<nat>, ghost all: Waits)
    returns (last: map<string, nat>)
    requires IsClosureOf(tasks, producers, closure) && i < |tasks| && all == WaitsOf(tasks, producers, closure)
    requires IsLastTable(tasks, lastOpForResource, i) && Counts(Partial(all, i), dependents[..], inDegree[..])
    modifies dependents, inDegree
    ensures IsLastTable(tasks, last, i + 1) && Counts(Partial(all, i + 1), dependents[..], inDegree[..])
  {
    var previous := Previous(tasks, lastOpForResource, i);
    AddOperation(producers, closure, i, previous, tasks[i].refs, dependents, inDegree, Partial(all, i));
    PartialGrows(all, i);
    LastTableGrows(tasks, lastOpForResource, i);
    last := if tasks[i].key.Some? then lastOpForResource[tasks[i].key.value := i] else lastOpForResource;
  }

  method BuildGraph(tasks: seq<Task>, producers: map<string, nat>, closure: map<nat, set<nat>>)
    returns (dependents: array<seq<nat>>, inDegree: array<nat>)
    requires IsClosureOf(tasks, producers, closure)
    ensures fresh(dependents) && fresh(inDegree)
    ensures Counts(WaitsOf(tasks, producers, closure), dependents[..], inDegree[..])
  {
    var n := |tasks|;
    dependents := new seq<nat>[n](_ => []);
    inDegree := new nat[n](_ => 0);
    var lastOpForResource: map<string, nat> := map[];
    ghost var all := WaitsOf(tasks, producers, closure);
    for i := 0 to n
      invariant IsLastTable(tasks, lastOpForResource, i)
      invariant Counts(Partial(all, i), dependents[..], inDegree[..])
    {
      lastOpForResource := AddNext(tasks, producers, closure, lastOpForResource, i, dependents, inDegree, all);
    }
    assert Partial(all, n) == all;
  }

  lemma PartialGrows(w: Waits, i: nat)
    requires i < |w|
    ensures Partial(w, i)[i := w[i]] == Partial(w, i + 1)
  {
  }

  /** The waits of the operations before i; the others wait for nothing yet. */
  ghost function Partial(w: Waits, i: nat): Waits {
    seq(|w|, v requires 0 <= v < |w| => if v < i then w[v] else {})
  }

  // ----- the loop

  lemma NoneLeft(w: set<nat>, scheduled: set<nat>)
    ensures |w - scheduled| == 0 <==> w <= scheduled
  {
    assert w == (w - scheduled) + (w * scheduled);
  }

  /** The operation scheduled next. */
  method Choose(posts: seq<bool>, scheduled: array<bool>, inDegree: array<nat>, ghost w: Waits, ghost order: seq<nat>)
    returns (chosen: nat)
    requires |posts| == |w| == scheduled.Length == inDegree.Length
    requires |order| < |w| && Distinct(order) && forall x | x in order :: x < |w|
    requires forall v | 0 <= v < |w| :: scheduled[v] <==> v in order
    requires forall v | 0 <= v < |w| :: inDegree[v] == |w[v] - Elements(order)|
    ensures Picks(w, posts, Elements(order), chosen)
  {
    var n := |posts|;
    Remaining(order, n);
    forall v | 0 <= v < n
      ensures inDegree[v] == 0 <==> w[v] <= Elements(order)
    {
      NoneLeft(w[v], Elements(order));
    }
    for i := 0 to n
      invariant forall v | 0 <= v < i :: !Ready(w, Elements(order), v)
    {
      if !scheduled[i] && inDegree[i] == 0 {
        assert Ready(w, Elements(order), i);
        return i;
      }
    }
    assert Waiting(w, Elements(order));
    for i := 0 to n
      invariant forall v | 0 <= v < i :: v in order || !posts[v]
    {
      if !scheduled[i] && posts[i] {
        return i;
      }
    }
    ghost var v :| 0 <= v < n && v !in order;
    chosen := 0;
    while scheduled[chosen]
      invariant chosen <= v && forall u | 0 <= u < chosen :: u in order
      decreases v - chosen
    {
      chosen := chosen + 1;
    }
  }

  lemma OneLessWaiting(w: set<nat>, order: seq<nat>, chosen: nat)
    requires chosen !in order
    ensures |w - Elements(order + [chosen])| == |w - Elements(order)| - if chosen in w then 1 else 0
  {
    var rest := w - Elements(order);
    assert w - Elements(order + [chosen]) == rest - {chosen};
    if chosen in w {
      assert rest == (rest - {chosen}) + {chosen};
    } else {
      assert rest - {chosen} == rest;
    }
  }

  /** The counters of those told are one lower than before. */
  ghost predicate Lowered(before: seq<nat>, now: seq<nat>, told: seq<nat>) {
    |now| == |before| && forall v: nat | v < |before| :: now[v] as int == before[v] as int - if v in told then 1 else 0
  }

  lemma LowerOne(before: seq<nat>, now: seq<nat>, told: seq<nat>, dep: nat)
    requires Lowered(before, now, told) && dep < |now| && dep !in told && before[dep] > 0
    ensures now[dep] > 0 && Lowered(before, now[dep := now[dep] - 1], told + [dep])
  {
  }

  lemma OneLessEach(w: Waits, order: seq<nat>, chosen: nat, waiting: seq<nat>, before: seq<nat>)
    requires |w| == |before| && chosen < |w| && chosen !in order
    requires forall v: nat :: v in waiting <==> v < |w| && chosen in w[v]
    requires forall v | 0 <= v < |w| :: before[v] == |w[v] - Elements(order)|
    ensures forall v | 0 <= v < |w| ::
              && |w[v] - Elements(order + [chosen])| as int == before[v] as int - (if v in waiting then 1 else 0)
              && (v in waiting ==> before[v] > 0)
  {
    forall v | 0 <= v < |w|
      ensures |w[v] - Elements(order + [chosen])| as int == before[v] as int - (if v in waiting then 1 else 0)
      ensures v in waiting ==> before[v] > 0
    {
      OneLessWaiting(w[v], order, chosen);
    }
  }

  /** Tells the dependents of chosen that it is scheduled; no counter is already at zero. */
  method Release(chosen: nat, waiting: seq<nat>, inDegree: array<nat>, ghost w: Waits, ghost order: seq<nat>)
    requires |w| == inDegree.Length && chosen < |w| && chosen !in order
    requires Distinct(waiting)
    requires forall v: nat :: v in waiting <==> v < |w| && chosen in w[v]
    requires forall v | 0 <= v < |w| :: inDegree[v] == |w[v] - Elements(order)|
    modifies inDegree
    ensures forall v | 0 <= v < |w| :: inDegree[v] == |w[v] - Elements(order + [chosen])|
  {
    ghost var before := inDegree[..];
    OneLessEach(w, order, chosen, waiting, before);
    for k := 0 to |waiting|
      invariant Lowered(before, inDegree[..], waiting[..k])
    {
      var dep := waiting[k];
      assert dep in waiting && dep !in waiting[..k];
      LowerOne(before, inDegree[..], waiting[..k], dep);
      ghost var now := inDegree[..];
      if inDegree[dep] > 0 {
        inDegree[dep] := inDegree[dep] - 1;
      }
      assert inDegree[..] == now[dep := now[dep] - 1];
      assert waiting[..k + 1] == waiting[..k] + [dep];
    }
    assert waiting[..|waiting|] == waiting;
    assert Lowered(before, inDegree[..], waiting);
  }

  lemma DependentsOf(w: Waits, lists: seq<seq<nat>>, u: nat)
    requires u < |w| && exists n :: Counts(w, lists, n)
    ensures |lists| == |w| && Distinct(lists[u])
    ensures forall v: nat :: v in lists[u] <==> v < |w| && u in w[v]
  {
    forall v: nat ensures v in lists[u] <==> v < |w| && u in w[v] {
      assert Inverse(w, lists, u, v);
    }
  }

  /** What the loop keeps: flags say what is scheduled, counters how many waits remain. */
  ghost predicate Progress(w: Waits, posts: seq<bool>, scheduled: seq<bool>, inDegree: seq<nat>, order: seq<nat>) {
    && |posts| == |w| == |scheduled| == |inDegree|
    && Greedy(w, posts, order)
    && (forall v | 0 <= v < |w| :: scheduled[v] <==> v in order)
    && (forall v | 0 <= v < |w| :: inDegree[v] == |w[v] - Elements(order)|)
  }

  method Step(posts: seq<bool>, lists: seq<seq<nat>>, scheduled: array<bool>, inDegree: array<nat>, ghost w: Waits,
              order: seq<nat>)
    returns (order': seq<nat>)
    requires Progress(w, posts, scheduled[..], inDegree[..], order) && |order| < |w|
    requires exists n :: Counts(w, lists, n)
    modifies scheduled, inDegree
    ensures Progress(w, posts, scheduled[..], inDegree[..], order')
    ensures |order'| == |order| + 1
  {
    GreedyIsDistinct(w, posts, order);
    var chosen := Choose(posts, scheduled, inDegree, w, order);
    DependentsOf(w, lists, chosen);
    GreedyGrows(w, posts, order, chosen);
    scheduled[chosen] := true;
    Release(chosen, lists[chosen], inDegree, w, order);
    order' := order + [chosen];
  }

  method RunSchedule(posts: seq<bool>, lists: seq<seq<nat>>, inDegree: array<nat>, ghost w: Waits)
    returns (order: seq<nat>)
    requires |posts| == |w| && Counts(w, lists, inDegree[..])
    modifies inDegree
    ensures Greedy(w, posts, order) && |order| == |w|
  {
    var n := |posts|;
    var scheduled := new bool[n](_ => false);
    order := [];
    forall v | 0 <= v < n
      ensures inDegree[v] == |w[v] - Elements(order)|
    {
      assert w[v] - Elements(order) == w[v];
    }
    while |order| < n
      invariant |order| <= n
      invariant Progress(w, posts, scheduled[..], inDegree[..], order)
    {
      order := Step(posts, lists, scheduled, inDegree, w, order);
    }
  }

  lemma GreedyGrows(w: Waits, posts: seq<bool>, order: seq<nat>, chosen: nat)
    requires |posts| == |w| && |order| < |w|
    requires Greedy(w, posts, order) && Picks(w, posts, Elements(order), chosen)
    ensures Greedy(w, posts, order + [chosen])
  {
    var longer := order + [chosen];
    forall k | 0 <= k < |longer|
      ensures Picks(w, posts, Elements(longer[..k]), longer[k])
    {
      if k < |order| {
        assert longer[..k] == order[..k];
      } else {
        assert longer[..k] == order;
      }
    }
  }

  // ----- the execution order of a request

  ghost predicate IsExecutionOrder(tasks: seq<Task>, order: seq<nat>)
    requires Sound(tasks)
  {
    ClosureTableIsClosure(tasks);
    Greedy(RequestWaits(tasks), PostsOf(tasks), order) && |order| == |tasks|
  }

  ghost function RequestWaits(tasks: seq<Task>): (w: Waits)
    requires Sound(tasks)
    ensures |w| == |tasks|
  {
    ClosureTableIsClosure(tasks);
    WaitsOf(tasks, Producers(tasks), ClosureTable(tasks))
  }

  method ComputeBulkExecutionOrder(tasks: seq<Task>, producers: map<string, nat>) returns (order: seq<nat>)
    requires Sound(tasks) && producers == Producers(tasks)
    ensures IsExecutionOrder(tasks, order)
  {
    ClosureTableIsClosure(tasks);
    if |tasks| <= 1 || producers == map[] {
      order := Identity(|tasks|);
      WaitsAreWellFormed(tasks, producers, ClosureTable(tasks));
      FewTasksWaitForEarlier(tasks);
      ClientOrderIsGreedy(RequestWaits(tasks), PostsOf(tasks));
      return;
    }
    var closure := ComputePostProducerClosure(tasks, producers);
    var dependents, inDegree := BuildGraph(tasks, producers, closure);
    order := RunSchedule(PostsOf(tasks), dependents[..], inDegree, RequestWaits(tasks));
  }

  lemma FewTasksWaitForEarlier(tasks: seq<Task>)
    requires Sound(tasks) && (|tasks| <= 1 || Producers(tasks) == map[])
    ensures WaitsForEarlier(RequestWaits(tasks))
  {
    ClosureTableIsClosure(tasks);
    var producers, closure := Producers(tasks), ClosureTable(tasks);
    var w := RequestWaits(tasks);
    forall v, u | 0 <= v < |tasks| && u in w[v]
      ensures u < v
    {
      assert w[v] == Preds(tasks, producers, closure, v);
      PredsArePostsOrEarlier(tasks, producers, closure, v, u);
      RefSourcesMeaning(producers, closure, v, tasks[v].refs);
    }
  }

  // ----- what the order guarantees

  /** Every operation runs once. */
  lemma EveryOperationOnce(tasks: seq<Task>, order: seq<nat>)
    requires Sound(tasks) && IsExecutionOrder(tasks, order)
    ensures Permutation(order, |tasks|)
  {
    GreedyIsPermutation(RequestWaits(tasks), PostsOf(tasks), order);
  }

  lemma NonPostWaits(tasks: seq<Task>, order: seq<nat>, k: nat)
    requires Sound(tasks) && IsExecutionOrder(tasks, order) && k < |order|
    requires order[k] < |tasks| && !tasks[order[k]].post
    ensures Producers(tasks).Values == ClosureTable(tasks).Keys
    ensures Preds(tasks, Producers(tasks), ClosureTable(tasks), order[k]) <= Elements(order[..k])
  {
    ClosureTableIsClosure(tasks);
    WaitsAreWellFormed(tasks, Producers(tasks), ClosureTable(tasks));
    NonPostsFollow(RequestWaits(tasks), PostsOf(tasks), order);
    assert Follows(RequestWaits(tasks), order, k);
  }

  /**
   An operation other than a POST runs after everything the producer of a bulkId it names
   depends on, directly or not, even when the POSTs depend on each other in circles.
   */
  lemma DependenciesRunFirst(tasks: seq<Task>, order: seq<nat>, k: nat, r: string)
    requires Sound(tasks) && IsExecutionOrder(tasks, order) && k < |order|
    requires order[k] < |tasks| && !tasks[order[k]].post
    requires r in tasks[order[k]].refs && r in Producers(tasks)
    ensures forall p | p in DirectDeps(tasks) && Reaches(DirectDeps(tasks), Producers(tasks)[r], p) :: p in order[..k]
  {
    var producers, closure, i := Producers(tasks), ClosureTable(tasks), order[k];
    ClosureTableIsClosure(tasks);
    NonPostWaits(tasks, order, k);
    RefSourcesMeaning(producers, closure, i, tasks[i].refs);
    forall p | p in DirectDeps(tasks) && Reaches(DirectDeps(tasks), producers[r], p)
      ensures p in order[..k]
    {
      assert p in closure[producers[r]];
      assert i !in closure[producers[r]];
      assert p in Sources(closure, i, producers[r]);
      assert p in Preds(tasks, producers, closure, i);
    }
  }

  /** In an order that respects every wait, the producer an operation names runs before it. */
  lemma NamedProducerRunsFirst(tasks: seq<Task>, order: seq<nat>, a: nat, r: string) returns (b: nat)
    requires Sound(tasks) && Topological(RequestWaits(tasks), order) && a < |order| && order[a] < |tasks|
    requires r in tasks[order[a]].refs && r in Producers(tasks)
    ensures b <= a && order[b] == Producers(tasks)[r]
  {
    var producers, closure, i := Producers(tasks), ClosureTable(tasks), order[a];
    b := a;
    if producers[r] != i {
      ClosureTableIsClosure(tasks);
      RefSourcesMeaning(producers, closure, i, tasks[i].refs);
      assert producers[r] in Sources(closure, i, producers[r]);
      assert producers[r] in Preds(tasks, producers, closure, i);
      assert Follows(RequestWaits(tasks), order, a);
      assert producers[r] in order[..a];
      b :| 0 <= b < a && order[b] == producers[r];
    }
  }

  lemma {:induction false} DependenciesGoBack(tasks: seq<Task>, order: seq<nat>, path: seq<nat>, a: nat) returns (b: nat)
    requires Sound(tasks) && Topological(RequestWaits(tasks), order)
    requires IsPath(DirectDeps(tasks), path) && a < |order| && order[a] == path[0]
    ensures b <= a && order[b] == path[|path| - 1]
    decreases |path|
  {
    b := a;
    if |path| > 1 {
      assert path[0] in DirectDeps(tasks) && path[0 + 1] in DirectDeps(tasks)[path[0]];
      assert order[a] in order;
      var r :| r in tasks[order[a]].refs && r in Producers(tasks) && Producers(tasks)[r] == path[1];
      var c := NamedProducerRunsFirst(tasks, order, a, r);
      var rest := path[1..];
      assert forall k | 0 <= k < |rest| :: rest[k] == path[k + 1];
      assert IsPath(DirectDeps(tasks), rest);
      b := DependenciesGoBack(tasks, order, rest, c);
    }
  }

  /** Without circular waits every operation, POSTs included, runs after all it depends on. */
  lemma AcyclicDependenciesRunFirst(tasks: seq<Task>, order: seq<nat>, k: nat, r: string)
    requires Sound(tasks) && IsExecutionOrder(tasks, order) && Acyclic(RequestWaits(tasks))
    requires k < |order| && order[k] < |tasks| && r in tasks[order[k]].refs && r in Producers(tasks)
    ensures forall p | p in DirectDeps(tasks) && Reaches(DirectDeps(tasks), Producers(tasks)[r], p) ::
              exists b :: 0 <= b <= k && order[b] == p
  {
    RequestOrderIsTopological(tasks, order);
    var c := NamedProducerRunsFirst(tasks, order, k, r);
    forall p | p in DirectDeps(tasks) && Reaches(DirectDeps(tasks), Producers(tasks)[r], p)
      ensures exists b :: 0 <= b <= k && order[b] == p
    {
      var path :| IsPath(DirectDeps(tasks), path) && path[0] == Producers(tasks)[r] && path[|path| - 1] == p;
      var b := DependenciesGoBack(tasks, order, path, c);
    }
  }

  /** Every operation, POST or not, runs after all it waits for exactly when no waits are circular. */
  lemma RequestOrderIsTopological(tasks: seq<Task>, order: seq<nat>)
    requires Sound(tasks) && IsExecutionOrder(tasks, order)
    ensures Topological(RequestWaits(tasks), order) <==> Acyclic(RequestWaits(tasks))
  {
    ClosureTableIsClosure(tasks);
    WaitsAreWellFormed(tasks, Producers(tasks), ClosureTable(tasks));
    GreedyIsTopological(RequestWaits(tasks), PostsOf(tasks), order);
  }

  /** The request's order is the client's, with no cycle broken, exactly when nothing waits for a later operation. */
  lemma ClientOrderOfRequest(tasks: seq<Task>, order: seq<nat>)
    requires Sound(tasks) && IsExecutionOrder(tasks, order)
    ensures order == Identity(|tasks|) && Acyclic(RequestWaits(tasks)) <==> WaitsForEarlier(RequestWaits(tasks))
  {
    ClosureTableIsClosure(tasks);
    WaitsAreWellFormed(tasks, Producers(tasks), ClosureTable(tasks));
    ClientOrderKept(RequestWaits(tasks), PostsOf(tasks), order);
  }

  /** Of all orders that respect every wait, the loop's is first in dictionary order. */
  lemma LexLeastOfRequest(tasks: seq<Task>, order: seq<nat>, t: seq<nat>)
    requires Sound(tasks) && IsExecutionOrder(tasks, order) && Topological(RequestWaits(tasks), t)
    ensures Topological(RequestWaits(tasks), order) && LexAtMost(order, t)
  {
    ClosureTableIsClosure(tasks);
    WaitsAreWellFormed(tasks, Producers(tasks), ClosureTable(tasks));
    TopologicalIsAcyclic(RequestWaits(tasks), t);
    GreedyIsTopological(RequestWaits(tasks), PostsOf(tasks), order);
    GreedyIsLexLeast(RequestWaits(tasks), PostsOf(tasks), order, t);
  }

  // ----- helpers for requests given one by one

  lemma ReachSetWithin(g: Graph, a: nat, closed: set<nat>)
    requires a in g && a in closed && forall v | v in closed && v in g :: g[v] <= closed
    ensures ReachSet(g, a) <= closed
  {
    forall x | x in ReachSet(g, a)
      ensures x in closed
    {
      var path :| IsPath(g, path) && path[0] == a && path[|path| - 1] == x;
      ClosedHoldsPath(g, closed, path, |path| - 1);
    }
  }

  lemma OneSource(producers: map<string, nat>, closure: map<nat, set<nat>>, i: nat, r: string)
    requires producers.Values == closure.Keys && r in producers
    ensures RefSources(producers, closure, i, []) == {}
    ensures RefSources(producers, closure, i, [r]) == Sources(closure, i, producers[r])
  {
    assert [r][..0] == [];
  }
}
