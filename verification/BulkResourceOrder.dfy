/**
 The order of the operations on one resource: exactly when the schedule keeps it, and a
 request where it does not.
 */
module BulkResourceOrder {
  import opened Text
  import opened BulkRequest
  import opened BulkClosure
  import opened BulkSchedule
  import opened BulkOrder

  ghost predicate OnKey(tasks: seq<Task>, i: nat, key: string) {
    i < |tasks| && tasks[i].key == Some(key)
  }

  /** Why j stays before a later operation i on its resource: j is a POST, or none of those that follow it up to i is. */
  ghost predicate KeepsPlace(tasks: seq<Task>, j: nat, i: nat, key: string) {
    j < |tasks| && (tasks[j].post || forall m | j < m <= i && OnKey(tasks, m, key) :: !tasks[m].post)
  }

  lemma WaitsForLast(tasks: seq<Task>, i: nat, key: string)
    requires Sound(tasks) && OnKey(tasks, i, key) && LastOn(tasks, key, i).Some?
    ensures LastOn(tasks, key, i).value in RequestWaits(tasks)[i]
  {
    ClosureTableIsClosure(tasks);
  }

  /** Then j runs before the operation at place k. */
  lemma {:induction false} ResourceOrderKept(tasks: seq<Task>, order: seq<nat>, k: nat, j: nat, key: string)
    requires Sound(tasks) && IsExecutionOrder(tasks, order) && k < |order|
    requires OnKey(tasks, order[k], key) && j < order[k] && OnKey(tasks, j, key) && KeepsPlace(tasks, j, order[k], key)
    ensures j in order[..k]
    decreases k
  {
    var w, c := RequestWaits(tasks), order[k];
    var last := LastOn(tasks, key, c).value;
    WaitsForLast(tasks, c, key);
    assert Picks(w, PostsOf(tasks), Elements(order[..k]), c);
    if !tasks[c].post {
      NonPostWaits(tasks, order, k);
    }
    if Ready(w, Elements(order[..k]), c) || !tasks[c].post {
      assert last in Elements(order[..k]);
      if last != j {
        var before :| 0 <= before < k && order[before] == last;
        ResourceOrderKept(tasks, order, before, j, key);
        assert order[..before] <= order[..k];
      }
    }
  }

  // ----- exactly when operations on a resource keep their order

  /** A request with the same methods and paths and perhaps more operations after them. */
  ghost predicate SameMethodsAndPaths(ops: seq<Operation>, other: seq<Operation>) {
    |ops| <= |other| && forall i | 0 <= i < |ops| :: SameMethodAndPath(ops[i], other[i])
  }

  predicate SameMethodAndPath(a: Operation, b: Operation) {
    (a.Operation? <==> b.Operation?) && (a.Operation? ==> a.verb == b.verb && a.path == b.path)
  }

  ghost predicate RunsBefore(order: seq<nat>, j: nat, i: nat) {
    forall k | 0 <= k < |order| && order[k] == i :: j in order[..k]
  }

  lemma PickExists(preds: Waits, posts: seq<bool>, scheduled: set<nat>, v: nat) returns (pick: nat)
    requires |posts| == |preds| && v < |preds| && v !in scheduled
    ensures Picks(preds, posts, scheduled, pick)
  {
    pick := 0;
    if !Waiting(preds, scheduled) {
      var x :| 0 <= x < |preds| && Ready(preds, scheduled, x);
      while !Ready(preds, scheduled, pick)
        invariant pick <= x && forall w | 0 <= w < pick :: !Ready(preds, scheduled, w)
        decreases x - pick
      {
        pick := pick + 1;
      }
    } else if exists w :: 0 <= w < |posts| && w !in scheduled && posts[w] {
      var x :| 0 <= x < |posts| && x !in scheduled && posts[x];
      while pick in scheduled || !posts[pick]
        invariant pick <= x && forall w | 0 <= w < pick :: w in scheduled || !posts[w]
        decreases x - pick
      {
        pick := pick + 1;
      }
    } else {
      while pick in scheduled
        invariant pick <= v && forall w | 0 <= w < pick :: w in scheduled
        decreases v - pick
      {
        pick := pick + 1;
      }
    }
  }

  lemma {:induction false} OrderExists(tasks: seq<Task>, n: nat) returns (order: seq<nat>)
    requires Sound(tasks) && n <= |tasks|
    ensures |order| == n && Greedy(RequestWaits(tasks), PostsOf(tasks), order)
  {
    order := [];
    if n > 0 {
      var w, posts := RequestWaits(tasks), PostsOf(tasks);
      order := OrderExists(tasks, n - 1);
      GreedyIsDistinct(w, posts, order);
      Remaining(order, |tasks|);
      var v: nat :| v < |tasks| && v !in order;
      var pick := PickExists(w, posts, Elements(order), v);
      GreedyGrows(w, posts, order, pick);
      order := order + [pick];
    }
  }

  /** The last operation of a request, a POST on the resource of j, m and i, is one that j names; nothing else names anything. */
  ghost predicate Trap(tasks: seq<Task>, j: nat, m: nat, i: nat, key: string) {
    && Sound(tasks) && j < m <= i < |tasks| - 1
    && OnKey(tasks, j, key) && OnKey(tasks, m, key) && OnKey(tasks, i, key) && OnKey(tasks, |tasks| - 1, key)
    && !tasks[j].post && tasks[m].post && tasks[|tasks| - 1].declares.Some?
    && tasks[j].refs == [tasks[|tasks| - 1].declares.value]
    && (forall x | 0 <= x < |tasks| && x != j :: tasks[x].refs == [])
    && (forall x | 0 <= x < |tasks| - 1 :: tasks[x].declares == None)
  }

  lemma TrapProducers(tasks: seq<Task>, j: nat, m: nat, i: nat, key: string)
    requires Trap(tasks, j, m, i, key)
    ensures var c := tasks[j].refs[0]; c in Producers(tasks) && Producers(tasks)[c] == |tasks| - 1
  {
    ProducersAreFirst(tasks);
    var c := tasks[j].refs[0];
    assert tasks[|tasks| - 1].declares.value in Producers(tasks);
    assert tasks[Producers(tasks)[c]].declares == Some(c);
  }

  lemma NamedIsWaitedFor(tasks: seq<Task>, producers: map<string, nat>, closure: map<nat, set<nat>>, j: nat, c: string)
    requires producers.Values == closure.Keys && c in producers && j < |tasks| && tasks[j].refs == [c] && producers[c] != j
    ensures producers[c] in Preds(tasks, producers, closure, j)
  {
    OneSource(producers, closure, j, c);
    assert producers[c] in Sources(closure, j, producers[c]);
  }

  lemma WaitsForNamed(tasks: seq<Task>, j: nat, c: string)
    requires Sound(tasks) && j < |tasks| && tasks[j].refs == [c]
    requires c in Producers(tasks) && Producers(tasks)[c] != j
    ensures Producers(tasks)[c] in RequestWaits(tasks)[j]
  {
    ClosureTableIsClosure(tasks);
    NamedIsWaitedFor(tasks, Producers(tasks), ClosureTable(tasks), j, c);
  }

  lemma TrapWaits(tasks: seq<Task>, j: nat, m: nat, i: nat, key: string)
    requires Trap(tasks, j, m, i, key)
    ensures |tasks| - 1 in RequestWaits(tasks)[j]
  {
    TrapProducers(tasks, j, m, i, key);
    WaitsForNamed(tasks, j, tasks[j].refs[0]);
  }

  /** Between an operation on the resource that has run and a later one that has not, one waits for an operation that has run. */
  lemma {:induction false} NextOnKey(tasks: seq<Task>, key: string, m: nat, i: nat, done: set<nat>) returns (c: nat)
    requires OnKey(tasks, m, key) && OnKey(tasks, i, key) && m < i && m in done && i !in done
    ensures m < c <= i && OnKey(tasks, c, key) && c !in done
    ensures LastOn(tasks, key, c).Some? && LastOn(tasks, key, c).value in done
    decreases i
  {
    var last := LastOn(tasks, key, i).value;
    if last in done {
      c := i;
    } else {
      c := NextOnKey(tasks, key, m, last, done);
    }
  }

  /** In such a request the POST m is taken out of the circle first, and all up to i follow it before j. */
  lemma TrapOvertakes(tasks: seq<Task>, order: seq<nat>, j: nat, m: nat, i: nat, key: string)
    requires Trap(tasks, j, m, i, key) && IsExecutionOrder(tasks, order)
    ensures RunsBefore(order, i, j)
  {
    forall k | 0 <= k < |order| && order[k] == j
      ensures i in order[..k]
    {
      TrapWaits(tasks, j, m, i, key);
      NonPostWaits(tasks, order, k);
      assert |tasks| - 1 in order[..k];
      var at :| 0 <= at < k && order[at] == |tasks| - 1;
      TrapLast(tasks, order, at, j, m, i, key);
      assert order[..at] <= order[..k];
    }
  }

  /** An operation that names nothing is ready once the last one before it on its resource has run. */
  lemma ReadyAfterLast(tasks: seq<Task>, c: nat, key: string, done: set<nat>)
    requires Sound(tasks) && OnKey(tasks, c, key) && tasks[c].refs == [] && c !in done
    requires LastOn(tasks, key, c).Some? && LastOn(tasks, key, c).value in done
    ensures Ready(RequestWaits(tasks), done, c)
  {
    ClosureTableIsClosure(tasks);
    assert PathSource(tasks, c) <= done;
    assert RequestWaits(tasks)[c] == Preds(tasks, Producers(tasks), ClosureTable(tasks), c);
  }

  /** While c is ready, nothing after it is picked. */
  lemma ReadyGoesFirst(tasks: seq<Task>, order: seq<nat>, at: nat, c: nat)
    requires Sound(tasks) && IsExecutionOrder(tasks, order) && at < |order|
    requires c < |tasks| && Ready(RequestWaits(tasks), Elements(order[..at]), c)
    ensures order[at] <= c
  {
    assert Picks(RequestWaits(tasks), PostsOf(tasks), Elements(order[..at]), order[at]);
  }

  lemma TrapLast(tasks: seq<Task>, order: seq<nat>, at: nat, j: nat, m: nat, i: nat, key: string)
    requires Trap(tasks, j, m, i, key) && IsExecutionOrder(tasks, order)
    requires at < |order| && order[at] == |tasks| - 1
    ensures i in order[..at]
  {
    ResourceOrderKept(tasks, order, at, m, key);
    if i !in order[..at] {
      var c := NextOnKey(tasks, key, m, i, Elements(order[..at]));
      ReadyAfterLast(tasks, c, key, Elements(order[..at]));
      ReadyGoesFirst(tasks, order, at, c);
    }
  }

  /** The same methods and paths in a trap. */
  function Trapping(ops: seq<Operation>, j: nat, path: string): (other: seq<Operation>)
    ensures |other| == |ops| + 1
  {
    seq(|ops|, i requires 0 <= i < |ops| => Renamed(ops[i], if i == j then ["c"] else []))
    + [Operation("POST", "c", path, true, false, [], [], [], Nowhere)]
  }

  function Renamed(op: Operation, refs: seq<string>): Operation {
    match op
    case NotAnObject => op
    case Operation(verb, _, path, hasData, isGroup, _, _, _, address) =>
      Operation(verb, "", path, hasData, isGroup, [], refs, [], address)
  }

  lemma RenamedViews(op: Operation, refs: seq<string>)
    ensures View(Renamed(op, refs)) == Task(op.IsPost(), None, View(op).key, if op.Operation? then refs else [])
  {
    assert TrimSpace("") == "";
    if op.Operation? {
      assert Renamed(op, refs).Refs() == refs;
    }
  }

  lemma TrappingViews(ops: seq<Operation>, j: nat, m: nat, i: nat, key: string)
    requires j < m <= i < |ops| && ops[m].Operation?
    requires OnKey(Views(ops), j, key) && OnKey(Views(ops), m, key) && OnKey(Views(ops), i, key)
    requires !ops[j].IsPost() && ops[m].IsPost()
    ensures SameMethodsAndPaths(ops, Trapping(ops, j, ops[m].path))
    ensures Trap(Views(Trapping(ops, j, ops[m].path)), j, m, i, key)
  {
    var other := Trapping(ops, j, ops[m].path);
    var tasks := Views(other);
    forall x | 0 <= x < |ops|
      ensures SameMethodAndPath(ops[x], other[x])
      ensures tasks[x] == Task(ops[x].IsPost(), None, Views(ops)[x].key, if ops[x].Operation? && x == j then ["c"] else [])
    {
      RenamedViews(ops[x], if x == j then ["c"] else []);
    }
    LastOfTrap(ops[m].path);
    assert tasks[|ops|] == View(other[|ops|]);
  }

  lemma LastOfTrap(path: string)
    ensures View(Operation("POST", "c", path, true, false, [], [], [], Nowhere)) == Task(true, Some("c"), ResourceKey(path), [])
  {
    var op := Operation("POST", "c", path, true, false, [], [], [], Nowhere);
    assert TrimSpace("c") == "c";
    DeclaringIsPost(op);
    assert op.Refs() == [];
  }

  /**
   Of two operations on one resource the earlier runs first in every request with these methods
   and paths exactly if it is a POST or no operation on the resource after it, up to the later
   one, is.
   */
  lemma ResourceOrderExactlyIf(ops: seq<Operation>, j: nat, i: nat, key: string)
    requires j < i < |ops| && OnKey(Views(ops), j, key) && OnKey(Views(ops), i, key)
    ensures (forall other, order | SameMethodsAndPaths(ops, other) && IsExecutionOrder(Views(other), order) :: RunsBefore(order, j, i))
       <==> KeepsPlace(Views(ops), j, i, key)
  {
    if KeepsPlace(Views(ops), j, i, key) {
      forall other, order | SameMethodsAndPaths(ops, other) && IsExecutionOrder(Views(other), order)
        ensures RunsBefore(order, j, i)
      {
        KeptInAll(ops, other, order, j, i, key);
      }
    } else {
      var m :| j < m <= i && OnKey(Views(ops), m, key) && Views(ops)[m].post;
      var other := Trapping(ops, j, ops[m].path);
      TrappingViews(ops, j, m, i, key);
      var order := OrderExists(Views(other), |other|);
      TrapOvertakes(Views(other), order, j, m, i, key);
      Overtaken(Views(other), order, j, i);
      assert SameMethodsAndPaths(ops, other) && IsExecutionOrder(Views(other), order) && !RunsBefore(order, j, i);
    }
  }

  lemma SameViews(ops: seq<Operation>, other: seq<Operation>, x: nat)
    requires SameMethodsAndPaths(ops, other) && x < |ops|
    ensures Views(other)[x].post == Views(ops)[x].post && Views(other)[x].key == Views(ops)[x].key
  {
    assert SameMethodAndPath(ops[x], other[x]);
    assert Views(other)[x] == View(other[x]) && Views(ops)[x] == View(ops[x]);
  }

  lemma KeptInAll(ops: seq<Operation>, other: seq<Operation>, order: seq<nat>, j: nat, i: nat, key: string)
    requires SameMethodsAndPaths(ops, other) && IsExecutionOrder(Views(other), order)
    requires j < i < |ops| && OnKey(Views(ops), j, key) && OnKey(Views(ops), i, key) && KeepsPlace(Views(ops), j, i, key)
    ensures RunsBefore(order, j, i)
  {
    forall x: nat | x < |ops|
      ensures Views(other)[x].post == Views(ops)[x].post && Views(other)[x].key == Views(ops)[x].key
    {
      SameViews(ops, other, x);
    }
    forall m | j < m <= i && OnKey(Views(other), m, key)
      ensures OnKey(Views(ops), m, key)
    {
    }
    forall k | 0 <= k < |order| && order[k] == i
      ensures j in order[..k]
    {
      ResourceOrderKept(Views(other), order, k, j, key);
    }
  }

  lemma Overtaken(tasks: seq<Task>, order: seq<nat>, j: nat, i: nat)
    requires Sound(tasks) && IsExecutionOrder(tasks, order) && RunsBefore(order, i, j)
    requires j < |tasks| && i < |tasks| && j != i
    ensures !RunsBefore(order, j, i)
  {
    EveryOperationOnce(tasks, order);
    Remaining(order, |tasks|);
    assert j in order;
    var k :| 0 <= k < |order| && order[k] == j;
    assert i in order[..k];
    var l :| 0 <= l < k && order[l] == i;
    assert j !in order[..l];
  }

  /** Two segments without slashes make the key of a path. */
  lemma TwoSegments(a: string, b: string)
    requires a != "" && b != "" && '/' !in a && '/' !in b && !IsSpace(a[0]) && !IsSpace(b[|b| - 1])
    requires a != "." && a != ".." && b != "." && b != ".."
    ensures ResourceKey(a + "/" + b) == Some(ToLower(a) + "/" + b)
  {
    var path := a + ['/'] + b;
    assert path == a + "/" + b && path[0] == a[0] && path[|path| - 1] == b[|b| - 1];
    NothingToTrim(path, IsSpace);
    NothingToTrim(path, c => c == '/');
    CutAt(a, '/', b);
    NothingToCut(b, '/');
    assert [a] + [b] == [a, b];
    NothingToDrop(a, b);
    assert Segments(path) == Some([a, b]);
  }

  /**
   A request on a path that has a key: two PATCHes of one resource, the first naming bulkId c,
   with an ill-addressed POST between them and one at the end.
   */
  function Overtaking(path: string): seq<Operation> {
    [Edit("PATCH", path, ["c"]), Edit("POST", path, []), Edit("PATCH", path, []),
     Operation("POST", "c", path, true, false, [], [], [], Nowhere)]
  }

  function Edit(verb: string, path: string, refs: seq<string>): Operation {
    Operation(verb, "", path, true, false, [], refs, [], Nowhere)
  }

  lemma EditViews(path: string, refs: seq<string>)
    ensures View(Edit("PATCH", path, refs)) == Task(false, None, ResourceKey(path), refs)
    ensures View(Edit("POST", path, refs)) == Task(true, None, ResourceKey(path), refs)
  {
    NothingToTrim("PATCH", IsSpace);
    NothingToTrim("POST", IsSpace);
    assert TrimSpace("") == "" && Edit("PATCH", path, refs).Refs() == refs && Edit("POST", path, refs).Refs() == refs;
    assert |ToLower("PATCH")| == 5 && |ToLower("POST")| == 4;
  }

  lemma OvertakingViews(path: string)
    ensures var key := ResourceKey(path);
            Views(Overtaking(path)) == [Task(false, None, key, ["c"]), Task(true, None, key, []), Task(false, None, key, []),
                                        Task(true, Some("c"), key, [])]
  {
    EditViews(path, ["c"]);
    EditViews(path, []);
    LastOfTrap(path);
  }

  /** In it the second PATCH always runs before the first. */
  lemma PostOnResourceBreaksOrder(path: string, order: seq<nat>)
    requires ResourceKey(path).Some? && IsExecutionOrder(Views(Overtaking(path)), order)
    ensures RunsBefore(order, 2, 0)
  {
    OvertakingViews(path);
    OvertakingIsTrap(Views(Overtaking(path)), ResourceKey(path).value);
    TrapOvertakes(Views(Overtaking(path)), order, 0, 1, 2, ResourceKey(path).value);
  }

  lemma OvertakingIsTrap(tasks: seq<Task>, key: string)
    requires tasks == [Task(false, None, Some(key), ["c"]), Task(true, None, Some(key), []),
                       Task(false, None, Some(key), []), Task(true, Some("c"), Some(key), [])]
    ensures Trap(tasks, 0, 1, 2, key)
  {
  }
}
