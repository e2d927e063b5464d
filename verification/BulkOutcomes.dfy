/**
 What a bulk request's operations wait for and answer, in terms of the request: chains of
 bulkIds, paths and methods.
 */
module BulkOutcomes {
  import opened Text
  import opened BulkRequest
  import opened BulkClosure
  import opened BulkSchedule
  import opened BulkOrder
  import opened BulkState
  import opened BulkRun

  // ----- who waits for whom

  /** Operation v names a bulkId that p is the first to declare. */
  ghost predicate Names(tasks: seq<Task>, v: nat, p: nat) {
    v < |tasks| && exists r :: r in tasks[v].refs && r in Producers(tasks) && Producers(tasks)[r] == p
  }

  ghost predicate Chain(tasks: seq<Task>, path: seq<nat>) {
    path != [] && forall k | 0 <= k < |path| - 1 :: Names(tasks, path[k], path[k + 1])
  }

  /** From p on, each operation of a chain names the next, up to q. */
  ghost predicate LeadsTo(tasks: seq<Task>, p: nat, q: nat) {
    exists path :: Chain(tasks, path) && path[0] == p && path[|path| - 1] == q
  }

  ghost predicate IsProducer(tasks: seq<Task>, p: nat) {
    p in Producers(tasks).Values
  }

  lemma NamedIsProducer(tasks: seq<Task>, v: nat, p: nat)
    requires Names(tasks, v, p)
    ensures IsProducer(tasks, p)
  {
  }

  lemma EdgesAreNames(tasks: seq<Task>, v: nat, p: nat)
    requires IsProducer(tasks, v)
    ensures v in DirectDeps(tasks) && v < |tasks|
    ensures p in DirectDeps(tasks)[v] <==> Names(tasks, v, p)
  {
    ProducersAreFirst(tasks);
  }

  lemma PathsAreChains(tasks: seq<Task>, path: seq<nat>)
    requires path != [] && IsProducer(tasks, path[0])
    ensures IsPath(DirectDeps(tasks), path) <==> Chain(tasks, path)
  {
    var g := DirectDeps(tasks);
    if IsPath(g, path) {
      forall k | 0 <= k < |path| - 1
        ensures Names(tasks, path[k], path[k + 1])
      {
        EdgesAreNames(tasks, path[k], path[k + 1]);
      }
    }
    if Chain(tasks, path) {
      forall k | 0 <= k < |path| - 1
        ensures path[k] in g && path[k + 1] in g[path[k]]
      {
        assert IsProducer(tasks, path[k]) by {
          if k > 0 {
            assert Names(tasks, path[k - 1], path[k - 1 + 1]);
            NamedIsProducer(tasks, path[k - 1], path[k]);
          }
        }
        EdgesAreNames(tasks, path[k], path[k + 1]);
      }
    }
  }

  /** The closure of a producer is exactly the producers that chains of names lead to from it. */
  lemma ClosureIsChains(tasks: seq<Task>, p: nat, q: nat)
    requires IsProducer(tasks, p)
    ensures p in ClosureTable(tasks)
    ensures q in ClosureTable(tasks)[p] <==> IsProducer(tasks, q) && LeadsTo(tasks, p, q)
  {
    var g := DirectDeps(tasks);
    if LeadsTo(tasks, p, q) {
      var path :| Chain(tasks, path) && path[0] == p && path[|path| - 1] == q;
      PathsAreChains(tasks, path);
    }
    if Reaches(g, p, q) {
      var path :| IsPath(g, path) && path[0] == p && path[|path| - 1] == q;
      PathsAreChains(tasks, path);
    }
  }

  /** Operation u is the last before v on the same resource. */
  predicate IsPrevious(tasks: seq<Task>, u: nat, v: nat) {
    && u < v < |tasks| && tasks[u].key.Some? && tasks[u].key == tasks[v].key
    && forall j | u < j < v :: tasks[j].key != tasks[v].key
  }

  /** Operation v waits for u because it names p. */
  ghost predicate WaitsThrough(tasks: seq<Task>, v: nat, p: nat, u: nat) {
    Names(tasks, v, p) && (u == p || (IsProducer(tasks, u) && LeadsTo(tasks, p, u) && !LeadsBack(tasks, p, v)))
  }

  lemma RefSourcesAre(tasks: seq<Task>, v: nat, u: nat)
    requires Sound(tasks) && v < |tasks| && Producers(tasks).Values == ClosureTable(tasks).Keys
    ensures u in RefSources(Producers(tasks), ClosureTable(tasks), v, tasks[v].refs) <==> exists p :: WaitsThrough(tasks, v, p, u)
  {
    var producers, closure := Producers(tasks), ClosureTable(tasks);
    RefSourcesMeaning(producers, closure, v, tasks[v].refs);
    if u in RefSources(producers, closure, v, tasks[v].refs) {
      var r :| r in tasks[v].refs && r in producers && u in Sources(closure, v, producers[r]);
      SourcesAre(tasks, producers[r], u, v);
      assert Names(tasks, v, producers[r]);
      assert WaitsThrough(tasks, v, producers[r], u);
    }
    if p :| WaitsThrough(tasks, v, p, u) {
      var r :| r in tasks[v].refs && r in producers && producers[r] == p;
      SourcesAre(tasks, p, u, v);
    }
  }

  /**
   An operation waits for the last one before it on its resource, for every producer it names, and for
   all that the producer depends on, unless the producer depends on the operation itself.
   */
  lemma WaitsExactlyIf(tasks: seq<Task>, v: nat, u: nat)
    requires Sound(tasks) && v < |tasks|
    ensures u in RequestWaits(tasks)[v] <==> u != v && (IsPrevious(tasks, u, v) || exists p :: WaitsThrough(tasks, v, p, u))
  {
    ClosureTableIsClosure(tasks);
    RefSourcesAre(tasks, v, u);
    PathSourceIsPrevious(tasks, u, v);
  }

  /** The producer depends on the operation, which is a producer too. */
  ghost predicate LeadsBack(tasks: seq<Task>, p: nat, v: nat) {
    IsProducer(tasks, v) && LeadsTo(tasks, p, v)
  }

  lemma SourcesAre(tasks: seq<Task>, p: nat, u: nat, v: nat)
    requires IsProducer(tasks, p)
    ensures p in ClosureTable(tasks)
    ensures u in Sources(ClosureTable(tasks), v, p) <==> u == p || (IsProducer(tasks, u) && LeadsTo(tasks, p, u) && !LeadsBack(tasks, p, v))
  {
    ClosureIsChains(tasks, p, u);
    ClosureIsChains(tasks, p, v);
  }

  lemma PathSourceIsPrevious(tasks: seq<Task>, u: nat, v: nat)
    requires v < |tasks|
    ensures u in PathSource(tasks, v) <==> IsPrevious(tasks, u, v)
  {
  }

  // ----- what the scheduler reads of an operation

  /** A bulkId is declared, without the space around it, by a method that reads "post" as it is written. */
  lemma DeclaresExactlyIf(op: Operation, b: string)
    requires op.Operation?
    ensures op.Declares() == Some(b) <==> ToLower(op.verb) == "post" && b == TrimSpace(op.bulkId) && b != ""
  {
    assert ToLower("POST") == "post";
  }

  /** The scheduler sees every bulkId that the path or the data name, and nothing else. */
  lemma TaskNames(op: Operation, r: string)
    ensures r in View(op).refs <==> op.Operation? && (r in op.pathRefs || r in op.otherRefs || r in op.deferrable)
    ensures View(op).post <==> op.IsPost()
    ensures View(op).declares == op.Declares()
    ensures op.Operation? ==> View(op).key == ResourceKey(op.path)
  {
  }

  // ----- what each operation answers

  /** Methods are recognised whatever their case and the space around them. */
  lemma VerbsAre(op: Operation)
    requires op.Operation?
    ensures var verb := ToLower(TrimSpace(op.verb));
            && (VerbOf(op) == Post <==> verb == "post") && (VerbOf(op) == Put <==> verb == "put")
            && (VerbOf(op) == Patch <==> verb == "patch") && (VerbOf(op) == Delete <==> verb == "delete")
            && (op.IsPost() <==> verb == "post")
  {
    assert ToLower("POST") == "post" && ToLower("PUT") == "put";
    assert ToLower("PATCH") == "patch" && ToLower("DELETE") == "delete";
  }

  /** A member of the group to be created stands for a resource that is gone. */
  predicate NamesGoneMember(s: State, op: Operation)
    requires op.Operation?
  {
    op.isGroup && exists r :: r in op.deferrable && r in s.bulkIdMap && s.bulkIdMap[r] in s.erased
  }

  function Target(s: State, op: Operation): Option<ResourceId>
    requires op.Operation?
  {
    match op.address
    case Nowhere => None
    case ById(id) => Some(id)
    case ByRef(r) => if r in s.bulkIdMap then Some(s.bulkIdMap[r]) else None
  }

  /** The answer to a POST: 201 with the new resource's location and version, or why there is none. */
  function PostAnswer(s: State, op: Operation, outcome: CreateOutcome): Result
    requires op.Operation?
  {
    if TrimSpace(op.bulkId) == "" || !op.hasData then Result(400, None, None)
    else
      match outcome
      case Rejected(status) => Result(status, None, None)
      case Created(id, version) => if NamesGoneMember(s, op) then Result(404, None, None) else Result(201, Some(OfCreated(id)), Some(version))
  }

  /** The answer to a PUT, PATCH or DELETE, always with the resource's location. */
  function ChangeAnswer(s: State, op: Operation, deletes: bool, outcome: UpdateOutcome): Result
    requires op.Operation?
  {
    if !deletes && !op.hasData then Result(400, TargetOf(op), None)
    else
      match Target(s, op)
      case None => Result(400, TargetOf(op), None)
      case Some(id) =>
        if id in s.erased then Result(404, TargetOf(op), None)
        else
          match outcome
          case NotUpdated(status) => Result(status, TargetOf(op), None)
          case Updated(version) => if deletes then Result(204, TargetOf(op), None) else Result(200, TargetOf(op), Some(version))
  }

  lemma PostAnswers(s: State, op: Operation, c: Call, producers: map<string, nat>, store: Store, i: nat)
    requires op.Operation? && c == CallOf(op) && c.verb == Post && i < |s.results| && s.linked.Keys <= s.created.Keys
    ensures Process(s, c, producers, store, i).results == s.results[i := Some(PostAnswer(s, op, store.create(i)))]
  {
    MembersAreThere(s, op);
  }

  lemma ChangeAnswers(s: State, op: Operation, c: Call, producers: map<string, nat>, store: Store, i: nat)
    requires op.Operation? && c == CallOf(op) && (c.verb == Put || c.verb == Patch || c.verb == Delete)
    requires i < |s.results| && s.linked.Keys <= s.created.Keys
    ensures Process(s, c, producers, store, i).results == s.results[i := Some(ChangeAnswer(s, op, c.verb == Delete, store.update(i)))]
  {
    assert TargetId(c, s.bulkIdMap) == Target(s, op);
  }

  /** The answer an operation gets by its method, in lower case. */
  function Answer(s: State, op: Operation, verb: string, store: Store, i: nat): Result
    requires op.Operation?
  {
    if verb == "post" then PostAnswer(s, op, store.create(i))
    else if verb == "put" || verb == "patch" then ChangeAnswer(s, op, false, store.update(i))
    else if verb == "delete" then ChangeAnswer(s, op, true, store.update(i))
    else Result(400, None, None)
  }

  /** Each operation answers for itself alone, by its method; any other method is refused. */
  lemma OperationAnswers(s: State, op: Operation, producers: map<string, nat>, store: Store, i: nat)
    requires op.Operation? && i < |s.results| && s.linked.Keys <= s.created.Keys
    ensures Process(s, CallOf(op), producers, store, i).results == s.results[i := Some(Answer(s, op, ToLower(TrimSpace(op.verb)), store, i))]
  {
    var c := CallOf(op);
    VerbsAre(op);
    if c.verb == Post {
      PostAnswers(s, op, c, producers, store, i);
    } else if c.verb == Put || c.verb == Patch || c.verb == Delete {
      ChangeAnswers(s, op, c, producers, store, i);
    }
  }

  lemma MembersAreThere(s: State, op: Operation)
    requires op.Operation?
    ensures MembersThere(s.bulkIdMap, s.erased, CallOf(op)) <==> !NamesGoneMember(s, op)
  {
    if op.isGroup && !MembersThere(s.bulkIdMap, s.erased, CallOf(op)) {
      var id :| id in Resolved(s.bulkIdMap, op.deferrable) && id in s.erased;
      var r :| r in op.deferrable && r in s.bulkIdMap && s.bulkIdMap[r] == id;
    }
    if NamesGoneMember(s, op) {
      var r :| r in op.deferrable && r in s.bulkIdMap && s.bulkIdMap[r] in s.erased;
      assert s.bulkIdMap[r] in Resolved(s.bulkIdMap, op.deferrable);
    }
  }

  /** A POST that succeeds, and nothing else, creates a resource and binds its bulkId. */
  lemma PostEffects(s: State, op: Operation, c: Call, producers: map<string, nat>, store: Store, i: nat)
    requires op.Operation? && c == CallOf(op) && c.verb == Post && i < |s.results| && s.linked.Keys <= s.created.Keys
    ensures var t, answer := Process(s, c, producers, store, i), PostAnswer(s, op, store.create(i));
            if answer.status == 201 then
              && store.create(i).Created? && t.bulkIdMap == s.bulkIdMap[op.bulkId := store.create(i).id]
              && t.created == s.created[i := CreatedPost(op.isGroup, store.create(i).id, op.bulkId, op.otherRefs + op.deferrable, false)]
            else t == s.(results := t.results)
  {
    MembersAreThere(s, op);
  }

  /** A PUT, PATCH or DELETE that fails changes nothing but its result; a DELETE that succeeds erases the resource its path leads to. */
  lemma ChangeEffects(s: State, op: Operation, c: Call, producers: map<string, nat>, store: Store, i: nat)
    requires op.Operation? && c == CallOf(op) && (c.verb == Put || c.verb == Patch || c.verb == Delete)
    requires i < |s.results| && s.linked.Keys <= s.created.Keys
    ensures var t, answer := Process(s, c, producers, store, i), ChangeAnswer(s, op, c.verb == Delete, store.update(i));
            && t.created == s.created && t.bulkIdMap == s.bulkIdMap && t.fixups == s.fixups && t.rolledBackIds == s.rolledBackIds
            && (answer.status >= 400 ==> t == s.(results := t.results))
            && (answer.status < 400 ==> Target(s, op).Some?
                                        && t.erased == if c.verb == Delete then s.erased + {Target(s, op).value} else s.erased)
  {
    assert TargetId(c, s.bulkIdMap) == Target(s, op);
  }
}
