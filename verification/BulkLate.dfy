/**
 Which POSTs can be left depending on something that was rolled back: those whose data name
 a bulkId where the reference cannot wait, and no others.
 */
module BulkLate {
  import opened Text
  import opened BulkRequest
  import opened BulkClosure
  import opened BulkSchedule
  import opened BulkOrder
  import opened BulkState
  import opened BulkCascade
  import opened BulkRun
  import opened BulkTrace
  import opened BulkReferences
  import opened BulkHandler

  /** Methods and bulkIds of POSTs have no surrounding space, so that each POST declares its bulkId as written. */
  ghost predicate PlainlyWritten(ops: seq<Operation>) {
    forall i | 0 <= i < |ops| && ops[i].IsPost() && TrimSpace(ops[i].bulkId) != "" :: ops[i].Declares() == Some(ops[i].bulkId)
  }

  /** The data of x name d, which a POST of the same request may declare, where the reference cannot wait. */
  predicate Late(x: Operation, d: string) {
    && x.Operation? && d in x.DataRefs() && d !in x.deferrable
    && d != x.bulkId && d != "" && TrimSpace(d) == d
  }

  ghost predicate NamesNothingGone(x: Operation, end: State) {
    x.Operation? && forall d | d in x.DataRefs() :: d !in end.rolledBackIds
  }

  /** Whatever request x is part of and whatever the store answers: if x survives, so does what its data name. */
  ghost predicate NeverLate(x: Operation) {
    forall ops, store, failOnErrors, order, states, end, i: nat |
      && Ends(ops, store, failOnErrors, order, states, end) && Trusted(Calls(ops), store) && PlainlyWritten(ops)
      && i < |ops| && ops[i] == x && Surviving(end, i) :: NamesNothingGone(x, end)
  }

  /** The path is that of the users or of the groups, with nothing after it. */
  predicate NamesCollection(path: string, isGroup: bool) {
    match Segments(path)
    case None => false
    case Some(segs) => |segs| == 1 && EqualFold(segs[0], if isGroup then "Groups" else "Users")
  }

  /** A POST with a bulkId, both plainly written, and data. */
  predicate IsComplete(x: Operation) {
    x.IsPost() && x.hasData && x.Declares() == Some(x.bulkId)
  }

  predicate CanCreate(x: Operation) {
    IsComplete(x) && NamesCollection(x.path, x.isGroup)
  }

  /** A POST that can create a resource is safe in every request exactly if none of its references is late. */
  lemma NeverLateExactlyIf(x: Operation)
    requires CanCreate(x)
    ensures NeverLate(x) <==> forall d :: !Late(x, d)
  {
    if forall d :: !Late(x, d) {
      forall ops, store, failOnErrors, order, states, end, i: nat |
        && Ends(ops, store, failOnErrors, order, states, end) && Trusted(Calls(ops), store) && PlainlyWritten(ops)
        && i < |ops| && ops[i] == x && Surviving(end, i)
        ensures NamesNothingGone(x, end)
      {
        DeferrableIsSafe(ops, store, failOnErrors, order, states, end, i);
      }
    } else {
      var d :| Late(x, d);
      LateIsNotSafe(x, d);
    }
  }

  lemma DeferrableIsSafe(ops: seq<Operation>, store: Store, failOnErrors: int, order: seq<nat>, states: seq<State>, end: State, i: nat)
    requires Ends(ops, store, failOnErrors, order, states, end) && Trusted(Calls(ops), store) && PlainlyWritten(ops)
    requires i < |ops| && Surviving(end, i) && ops[i].Operation? && forall d :: !Late(ops[i], d)
    ensures NamesNothingGone(ops[i], end)
  {
    var b, x := BulkOf(ops, store), ops[i];
    EveryOperationOnce(Views(ops), order);
    RunEndsSane(b, order, failOnErrors, states, end);
    assert RecordOk(b.calls, end, i) && Origin(b.calls, store, end.created[i], i);
    CallSays(ops, i);
    forall d | d in x.DataRefs() && d in end.rolledBackIds
      ensures false
    {
      GoneStandsForNothing(b.calls, store, end, d);
      var j :| 0 <= j < |b.calls| && b.calls[j].IsPost() && !b.calls[j].blankId && b.calls[j].bulkId == d && !Surviving(end, j);
      DeclaredPlainly(ops, j);
      assert !Late(x, d);
      StandsForNothing(b.calls, b.producers, store, end, i, d);
    }
  }

  lemma CallSays(ops: seq<Operation>, i: nat)
    requires i < |ops| && ops[i].Operation?
    ensures var c := Calls(ops)[i]; c.Call? && c.bulkId == ops[i].bulkId && c.deferrable == ops[i].deferrable && c.DataRefs() == ops[i].DataRefs()
  {
    assert Calls(ops)[i] == CallOf(ops[i]);
  }

  lemma DeclaredPlainly(ops: seq<Operation>, j: nat)
    requires PlainlyWritten(ops) && j < |ops| && Calls(ops)[j].IsPost() && !Calls(ops)[j].blankId
    ensures var d := Calls(ops)[j].bulkId; d != "" && TrimSpace(d) == d && d in Producers(Views(ops))
  {
    assert Calls(ops)[j] == CallOf(ops[j]) && Views(ops)[j] == View(ops[j]);
    ProducersAreFirst(Views(ops));
  }

  /** What a survivor's reference that can wait stands for has not been rolled back. */
  lemma StandsForNothing(calls: seq<Call>, producers: map<string, nat>, store: Store, end: State, i: nat, d: string)
    requires Sane(calls, producers, store, end, []) && Trusted(calls, store) && Surviving(end, i)
    requires d in end.rolledBackIds && i < |calls| && calls[i].Call?
    ensures !Wanted(calls, producers, i, d)
    ensures d != calls[i].bulkId
  {
    GoneStandsForNothing(calls, store, end, d);
    assert RecordOk(calls, end, i) && Origin(calls, store, end.created[i], i);
  }

  // ----- a late reference, in a request of three POSTs

  /** The first POST is rejected; the second, a group with the first as member, is rolled back; then the third is created. */
  ghost predicate LateCalls(calls: seq<Call>, e: string, d: string) {
    && |calls| == 3 && (forall i | 0 <= i < 3 :: calls[i].IsPost() && !calls[i].blankId && calls[i].hasData)
    && e != "" && calls[0].bulkId == e && calls[1].bulkId == d && e != d
    && calls[2].bulkId != e && calls[2].bulkId != d
    && calls[1].isGroup && calls[1].otherRefs == [] && calls[1].deferrable == [e]
    && e !in calls[2].deferrable && d !in calls[2].deferrable && d in calls[2].DataRefs()
  }

  ghost predicate LateTable(b: Bulk, e: string, d: string) {
    && LateCalls(b.calls, e, d) && b.store == LateStore()
    && b.producers == map[e := 0, d := 1, b.calls[2].bulkId := 2]
    && 1 in b.closure && b.closure[1] <= {0, 1}
  }

  function LateStore(): Store {
    Store((i: nat) => if i == 0 then Rejected(400) else Created(i, 0), i => NotUpdated(404), i => {}, (i, k) => None, i => 0)
  }

  function Refused(): Option<Result> {
    Some(Result(400, None, None))
  }

  ghost function AfterFirst(): State {
    Initial(3).(results := [Refused(), None, None])
  }

  ghost function AfterSecond(e: string, d: string): State {
    State(map[], [Refused(), Refused(), None], [], map[1 := CreatedPost(true, 1, d, [e], true)], {d}, map[], {1}, map[])
  }

  lemma FirstRound(b: Bulk, e: string, d: string)
    requires LateTable(b, e, d)
    ensures Round(b, {}, 0, Initial(3), AfterFirst())
  {
    var t := Process(Initial(3), b.calls[0], b.producers, b.store, 0);
    assert t.results == AfterFirst().results;
    assert Select([], b.closure, {} + {0}, true) == [];
  }

  /** The second POST before its reference fails. */
  ghost function InSecond(e: string, d: string): State {
    State(map[d := 1], [Refused(), Some(Result(201, Some(OfCreated(1)), Some(0))), None], [Fixup(1, true, [e])],
          map[1 := CreatedPost(true, 1, d, [e], false)], {}, map[1 := {}], {}, map[])
  }

  lemma SecondDefers(b: Bulk, e: string, d: string)
    requires LateTable(b, e, d)
    ensures DeferredRefs(b.calls[1], b.producers, map[], [e]) == [e] && b.calls[1].DataRefs() == [e]
    ensures Resolved(map[], [e]) == {}
  {
    assert e in b.producers && Deferred(b.calls[1], b.producers, map[], e);
    assert [e][..0] == [];
    assert DeferredRefs(b.calls[1], b.producers, map[], []) == [];
  }

  lemma SecondCreates(b: Bulk, e: string, d: string)
    requires LateTable(b, e, d)
    ensures Process(AfterFirst(), b.calls[1], b.producers, b.store, 1) == InSecond(e, d)
  {
    var s, op := AfterFirst(), b.calls[1];
    SecondDefers(b, e, d);
    assert Creates(s.bulkIdMap, s.erased, op, b.store, 1);
    var t := Create(s, op, b.producers, 1, 1, 0);
    assert t.results == InSecond(e, d).results;
    assert t.linked == InSecond(e, d).linked && t.erased == {};
    assert t.fixups == [Fixup(1, true, [e])];
  }

  lemma SecondPhase(store: Store, e: string, d: string)
    requires e != d
    ensures Phase(store, InSecond(e, d), [Fixup(1, true, [e])], [], AfterSecond(e, d))
  {
    var f, t, u := Fixup(1, true, [e]), InSecond(e, d).(fixups := []), AfterSecond(e, d);
    assert FixError(t, store, f, 0, {}) == Some(400);
    assert [f][..0] == [] && ApplyFixups(t, store, []) == t;
    assert ApplyFixups(t, store, [f]) == ApplyFixup(t, store, f) == Rollback(t, 1, 400);
    SecondRollback(e, d);
    RollbackSetEmpty(u);
    assert RolledBack(u) == {1};
    assert CompensatedBy(u, u, {});
  }

  lemma SecondRollback(e: string, d: string)
    ensures Rollback(InSecond(e, d).(fixups := []), 1, 400) == AfterSecond(e, d)
  {
    var v, u := Rollback(InSecond(e, d).(fixups := []), 1, 400), AfterSecond(e, d);
    assert v.linked == map[] && v.bulkIdMap == map[];
    assert v.results == u.results && v.created == u.created;
  }

  lemma SecondRound(b: Bulk, e: string, d: string)
    requires LateTable(b, e, d)
    ensures Round(b, {0}, 1, AfterFirst(), AfterSecond(e, d))
  {
    var f := Fixup(1, true, [e]);
    SecondCreates(b, e, d);
    SecondPhase(b.store, e, d);
    assert ReadyFor(b.closure, {0} + {1}, f) && [f][..0] == [];
    assert Select([f], b.closure, {0} + {1}, true) == [f] && Select([f], b.closure, {0} + {1}, false) == [];
    assert Resolves(b, {0} + {1}, InSecond(e, d), AfterSecond(e, d));
  }

  ghost function AfterThird(b: Bulk, e: string, d: string): State
    requires LateTable(b, e, d)
  {
    Create(AfterSecond(e, d), b.calls[2], b.producers, 2, 2, 0)
  }

  lemma {:induction false} NoneDeferred(op: Call, producers: map<string, nat>, bulkIdMap: map<string, ResourceId>, refs: seq<string>)
    requires op.Call? && forall r | r in refs :: !Deferred(op, producers, bulkIdMap, r)
    ensures DeferredRefs(op, producers, bulkIdMap, refs) == []
  {
    if refs != [] {
      NoneDeferred(op, producers, bulkIdMap, refs[..|refs| - 1]);
    }
  }

  lemma ThirdRound(b: Bulk, e: string, d: string)
    requires LateTable(b, e, d)
    ensures Round(b, {0, 1}, 2, AfterSecond(e, d), AfterThird(b, e, d)) && AfterThird(b, e, d).fixups == []
  {
    var s, op := AfterSecond(e, d), b.calls[2];
    assert Resolved(s.bulkIdMap, op.deferrable) == {};
    assert Process(s, op, b.producers, b.store, 2) == AfterThird(b, e, d);
    NoneDeferred(op, b.producers, s.bulkIdMap, op.deferrable);
    assert Select([], b.closure, {0, 1} + {2}, true) == [];
  }

  /** The run of the request in its own order leaves the third depending on the second. */
  lemma LateRun(b: Bulk, e: string, d: string) returns (states: seq<State>, end: State)
    requires LateTable(b, e, d)
    ensures RunsTo(b, Identity(3), 0, states, end)
    ensures Surviving(end, 2) && d in end.rolledBackIds
  {
    end := AfterThird(b, e, d);
    states := [Initial(3), AfterFirst(), AfterSecond(e, d), end];
    FirstRound(b, e, d);
    SecondRound(b, e, d);
    ThirdRound(b, e, d);
    ThreeRounds(b, Initial(3), AfterFirst(), AfterSecond(e, d), end);
    WholeRun(b, Identity(3), states, end);
  }

  lemma WholeRun(b: Bulk, order: seq<nat>, states: seq<State>, end: State)
    requires IsTrace(b, order, states) && states[|order|] == end && end.fixups == []
    ensures RunsTo(b, order, 0, states, end)
  {
    assert order[..|order|] == order;
    RunStops(b, order, 0, states, |order|, end, end);
  }

  lemma ThreePrefixes()
    ensures var order := Identity(3);
            Elements(order[..0]) == {} && Elements(order[..1]) == {0} && Elements(order[..2]) == {0, 1}
  {
    var order := Identity(3);
    assert order[..0] == [] && order[..1] == [0] && order[..2] == [0, 1];
  }

  lemma ThreeRounds(b: Bulk, s0: State, s1: State, s2: State, s3: State)
    requires s0 == Initial(|b.calls|) && Round(b, {}, 0, s0, s1) && Round(b, {0}, 1, s1, s2) && Round(b, {0, 1}, 2, s2, s3)
    ensures IsTrace(b, Identity(3), [s0, s1, s2, s3])
  {
    ThreePrefixes();
    var order, states := Identity(3), [s0, s1, s2, s3];
    assert Round(b, Elements(order[..0]), order[0], states[0], states[0 + 1]);
    assert Round(b, Elements(order[..1]), order[1], states[1], states[1 + 1]);
    assert Round(b, Elements(order[..2]), order[2], states[2], states[2 + 1]);
  }

  // the schedule of that request

  ghost predicate LateTasks(tasks: seq<Task>, e: string, d: string, own: string) {
    && |tasks| == 3 && Sound(tasks) && e != d && own != e && own != d
    && tasks[0] == Task(true, Some(e), None, []) && tasks[1] == Task(true, Some(d), None, [e])
    && tasks[2].declares == Some(own)
  }

  lemma LateProducers(tasks: seq<Task>, e: string, d: string, own: string)
    requires LateTasks(tasks, e, d, own)
    ensures Producers(tasks) == map[e := 0, d := 1, own := 2]
  {
    ProducersAreFirst(tasks);
    var producers := Producers(tasks);
    assert tasks[0].declares.value in producers && tasks[1].declares.value in producers && tasks[2].declares.value in producers;
    assert producers[e] == 0 && producers[d] == 1 && producers[own] == 2;
    assert producers.Keys == {e, d, own};
  }

  lemma LateClosure(tasks: seq<Task>, e: string, d: string, own: string)
    requires LateTasks(tasks, e, d, own)
    ensures var closure := ClosureTable(tasks); 0 in closure && 1 in closure && closure[0] <= {0} && closure[1] <= {0, 1}
  {
    LateProducers(tasks, e, d, own);
    var g, producers := DirectDeps(tasks), Producers(tasks);
    assert producers[e] == 0 && producers[d] == 1 && producers[own] == 2;
    assert g[0] == {} && g[1] == {0};
    ReachSetWithin(g, 0, {0});
    ReachSetWithin(g, 1, {0, 1});
  }

  lemma LateOrder(tasks: seq<Task>, e: string, d: string, own: string)
    requires LateTasks(tasks, e, d, own)
    ensures IsExecutionOrder(tasks, Identity(3))
  {
    LateProducers(tasks, e, d, own);
    LateClosure(tasks, e, d, own);
    ClosureTableIsClosure(tasks);
    var producers, closure := Producers(tasks), ClosureTable(tasks);
    WaitsAreWellFormed(tasks, producers, closure);
    forall v, u | 0 <= v < 3 && u in RequestWaits(tasks)[v]
      ensures u < v
    {
      LateWaits(tasks, e, d, own, v, u);
    }
    assert WaitsForEarlier(RequestWaits(tasks));
    ClientOrderIsGreedy(RequestWaits(tasks), PostsOf(tasks));
  }

  lemma LateWaits(tasks: seq<Task>, e: string, d: string, own: string, v: nat, u: nat)
    requires LateTasks(tasks, e, d, own) && v < 3 && Producers(tasks).Values == ClosureTable(tasks).Keys
    requires u in Preds(tasks, Producers(tasks), ClosureTable(tasks), v) && u < 3 && u != v
    ensures u < v
  {
    if v == 1 {
      LateProducers(tasks, e, d, own);
      LateClosure(tasks, e, d, own);
      FirstOnly(tasks, Producers(tasks), ClosureTable(tasks), e);
    } else {
      FirstWaitsForNothing(tasks, Producers(tasks), ClosureTable(tasks));
    }
  }

  lemma FirstWaitsForNothing(tasks: seq<Task>, producers: map<string, nat>, closure: map<nat, set<nat>>)
    requires |tasks| > 0 && tasks[0].key == None && tasks[0].refs == [] && producers.Values == closure.Keys
    ensures Preds(tasks, producers, closure, 0) == {}
  {
  }

  lemma FirstOnly(tasks: seq<Task>, producers: map<string, nat>, closure: map<nat, set<nat>>, e: string)
    requires |tasks| > 1 && tasks[1].key == None && tasks[1].refs == [e]
    requires producers.Values == closure.Keys && e in producers && producers[e] == 0 && closure[0] <= {0}
    ensures Preds(tasks, producers, closure, 1) <= {0}
  {
    OneSource(producers, closure, 1, e);
  }

  // the request itself

  function LongestOf(refs: seq<string>): (n: nat)
    ensures forall r | r in refs :: |r| <= n
  {
    if refs == [] then 0
    else
      var n := LongestOf(refs[..|refs| - 1]);
      if |refs[|refs| - 1]| > n then |refs[|refs| - 1]| else n
  }

  /** A bulkId that is none of the given ones. */
  function Unused(refs: seq<string>): (e: string)
    ensures e != "" && e !in refs && TrimSpace(e) == e
  {
    seq(LongestOf(refs) + 1, _ => 'a')
  }

  function GroupPost(bulkId: string, members: seq<string>): Operation {
    Operation("POST", bulkId, "Groups", true, true, [], [], members, Nowhere)
  }

  lemma GroupPostKey()
    ensures ResourceKey("Groups") == None
  {
    assert Trim(TrimSpace("Groups"), c => c == '/') == "Groups";
    NothingToCut("Groups", '/');
    assert ["Groups"][1..] == [];
    assert Segments("Groups") == Some(["Groups"]);
  }

  lemma GroupPostViews(bulkId: string, members: seq<string>)
    requires bulkId != "" && TrimSpace(bulkId) == bulkId
    ensures View(GroupPost(bulkId, members)) == Task(true, Some(bulkId), None, members)
    ensures var c := CallOf(GroupPost(bulkId, members));
            PlainCall(c, bulkId) && c.isGroup && c.otherRefs == [] && c.deferrable == members
  {
    var op := GroupPost(bulkId, members);
    GroupPostKey();
    assert op.Declares() == Some(bulkId);
    DeclaringIsPost(op);
    assert op.Refs() == members;
  }

  lemma LateIsNotSafe(x: Operation, d: string)
    requires IsComplete(x) && Late(x, d)
    ensures !NeverLate(x)
  {
    var ops, e := LateRequest(x, d);
    LateOrder(Views(ops), e, d, x.bulkId);
    LateProducers(Views(ops), e, d, x.bulkId);
    LateClosure(Views(ops), e, d, x.bulkId);
    var states, end := LateRun(BulkOf(ops, LateStore()), e, d);
    assert Ends(ops, LateStore(), 0, Identity(3), states, end);
    assert ops[2] == x && !NamesNothingGone(x, end);
  }

  lemma LateRequest(x: Operation, d: string) returns (ops: seq<Operation>, e: string)
    requires IsComplete(x) && Late(x, d)
    ensures |ops| == 3 && ops[2] == x && PlainlyWritten(ops) && Trusted(Calls(ops), LateStore())
    ensures LateTasks(Views(ops), e, d, x.bulkId) && LateCalls(Calls(ops), e, d)
  {
    e := Unused(x.Refs() + [d, x.bulkId]);
    assert d in x.Refs() + [d, x.bulkId] && x.bulkId in x.Refs() + [d, x.bulkId];
    var z, p := GroupPost(e, []), GroupPost(d, [e]);
    GroupPostViews(e, []);
    GroupPostViews(d, [e]);
    ops := [z, p, x];
    LateShape(ops, e, d);
    LateTrusted(Calls(ops), e, d);
    assert z.Declares() == Some(e) && p.Declares() == Some(d);
    PlainThree(ops);
  }

  lemma PlainThree(ops: seq<Operation>)
    requires |ops| == 3 && ops[0].Operation? && ops[1].Operation? && ops[2].Operation?
    requires ops[0].Declares() == Some(ops[0].bulkId) && ops[1].Declares() == Some(ops[1].bulkId)
    requires ops[2].Declares() == Some(ops[2].bulkId)
    ensures PlainlyWritten(ops)
  {
    forall i | 0 <= i < |ops|
      ensures ops[i].Operation? && ops[i].Declares() == Some(ops[i].bulkId)
    {
      assert i == 0 || i == 1 || i == 2;
    }
  }

  lemma LateTrusted(calls: seq<Call>, e: string, d: string)
    requires LateCalls(calls, e, d)
    ensures Trusted(calls, LateStore())
  {
    forall i, j | 0 <= i < j < 3
      ensures calls[i].bulkId != calls[j].bulkId
    {
      assert (i == 0 && (j == 1 || j == 2)) || (i == 1 && j == 2);
    }
  }

  lemma LateShape(ops: seq<Operation>, e: string, d: string)
    requires |ops| == 3 && IsComplete(ops[2]) && Late(ops[2], d)
    requires e != "" && e != d && e != ops[2].bulkId && e !in ops[2].Refs()
    requires View(ops[0]) == Task(true, Some(e), None, []) && View(ops[1]) == Task(true, Some(d), None, [e])
    requires PlainCall(CallOf(ops[0]), e) && PlainCall(CallOf(ops[1]), d)
    requires CallOf(ops[1]).isGroup && CallOf(ops[1]).otherRefs == [] && CallOf(ops[1]).deferrable == [e]
    ensures LateTasks(Views(ops), e, d, ops[2].bulkId) && LateCalls(Calls(ops), e, d)
  {
    assert Views(ops)[0] == View(ops[0]) && Views(ops)[1] == View(ops[1]) && Views(ops)[2] == View(ops[2]);
    assert forall r | r in ops[2].deferrable :: r in ops[2].Refs();
    CallSays(ops, 2);
    assert PlainCall(CallOf(ops[2]), ops[2].bulkId);
    LateCallsOf(Calls(ops), CallOf(ops[0]), CallOf(ops[1]), CallOf(ops[2]), e, d);
  }

  lemma LateCallsOf(calls: seq<Call>, z: Call, p: Call, x: Call, e: string, d: string)
    requires calls == [z, p, x] && e != "" && e != d && PlainCall(z, e) && PlainCall(p, d) && x.Call? && PlainCall(x, x.bulkId)
    requires x.bulkId != e && x.bulkId != d && p.isGroup && p.otherRefs == [] && p.deferrable == [e]
    requires e !in x.deferrable && d !in x.deferrable && d in x.DataRefs()
    ensures LateCalls(calls, e, d)
  {
    forall i | 0 <= i < 3
      ensures calls[i].IsPost() && !calls[i].blankId && calls[i].hasData
    {
      assert i == 0 || i == 1 || i == 2;
    }
  }

  predicate PlainCall(c: Call, bulkId: string) {
    c.IsPost() && !c.blankId && c.hasData && c.bulkId == bulkId
  }
}
