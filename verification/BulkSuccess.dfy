/**
 When deferred references succeed: exactly which fixups keep their resource, and that nothing
 is rolled back in a request whose POSTs the store accepts, however they name each other.
 */
module BulkSuccess {
  import opened Text
  import opened BulkRequest
  import opened BulkClosure
  import opened BulkSchedule
  import opened BulkOrder
  import opened BulkState
  import opened BulkCascade
  import opened BulkRun
  import opened BulkTrace
  import opened BulkPending
  import opened BulkReferences
  import opened BulkHandler
  import opened BulkLate

  // ----- one fixup

  /** A member is offered to the store unless one of the references before stands for the same resource. */
  predicate Offered(s: State, f: Fixup, k: nat)
    requires k < |f.refs| && f.refs[k] in s.bulkIdMap
  {
    f.isGroup ==> forall j | 0 <= j < k && f.refs[j] in s.bulkIdMap :: s.bulkIdMap[f.refs[j]] != s.bulkIdMap[f.refs[k]]
  }

  /** What is wrong with one reference: it stands for nothing, the store refuses it, or the member it names is gone. */
  function Trouble(s: State, store: Store, f: Fixup, k: nat): Option<nat>
    requires k < |f.refs|
  {
    if f.refs[k] !in s.bulkIdMap then Some(400)
    else if Offered(s, f, k) && store.admit(f.origIdx, k).Some? then Some(store.admit(f.origIdx, k).value)
    else if f.isGroup && s.bulkIdMap[f.refs[k]] in s.erased then Some(404)
    else None
  }

  ghost predicate NoTrouble(s: State, store: Store, f: Fixup, from: nat, to: nat)
    requires to <= |f.refs|
  {
    forall k | from <= k < to :: Trouble(s, store, f, k) == None
  }

  /** A user gets its manager only while its own row is there. */
  predicate RowThere(s: State, f: Fixup) {
    f.isGroup || f.origIdx in s.linked
  }

  /** The fixup fails with the given status, at its first reference in trouble or for want of its own row. */
  ghost predicate FailsWith(s: State, store: Store, f: Fixup, status: nat) {
    || (exists k :: 0 <= k < |f.refs| && NoTrouble(s, store, f, 0, k) && Trouble(s, store, f, k) == Some(status))
    || (NoTrouble(s, store, f, 0, |f.refs|) && !RowThere(s, f) && status == 500)
  }

  /** The members offered before reference k. */
  ghost predicate SeenBefore(s: State, f: Fixup, k: nat, seen: set<ResourceId>)
    requires k <= |f.refs|
  {
    && (forall j | 0 <= j < k :: f.refs[j] in s.bulkIdMap && s.bulkIdMap[f.refs[j]] in seen)
    && (forall id | id in seen :: exists j :: 0 <= j < k && f.refs[j] in s.bulkIdMap && s.bulkIdMap[f.refs[j]] == id)
  }

  lemma OfferedIsUnseen(s: State, f: Fixup, k: nat, seen: set<ResourceId>)
    requires k < |f.refs| && f.refs[k] in s.bulkIdMap && SeenBefore(s, f, k, seen)
    ensures Offered(s, f, k) <==> !(f.isGroup && s.bulkIdMap[f.refs[k]] in seen)
    ensures s.bulkIdMap[f.refs[k]] in seen ==> SeenBefore(s, f, k + 1, seen)
    ensures SeenBefore(s, f, k + 1, seen + {s.bulkIdMap[f.refs[k]]})
  {
    forall id | id in seen
      ensures exists j :: 0 <= j < k + 1 && f.refs[j] in s.bulkIdMap && s.bulkIdMap[f.refs[j]] == id
    {
      var j :| 0 <= j < k && f.refs[j] in s.bulkIdMap && s.bulkIdMap[f.refs[j]] == id;
    }
  }

  lemma {:induction false} ErrorIsFirstTrouble(s: State, store: Store, f: Fixup, k: nat, seen: set<ResourceId>)
    requires k <= |f.refs| && SeenBefore(s, f, k, seen) && (f.isGroup ==> seen !! s.erased) && NoTrouble(s, store, f, 0, k)
    ensures match FixError(s, store, f, k, seen)
            case None => NoTrouble(s, store, f, 0, |f.refs|) && RowThere(s, f)
            case Some(e) => FailsWith(s, store, f, e) && !(NoTrouble(s, store, f, 0, |f.refs|) && RowThere(s, f))
    decreases |f.refs| - k
  {
    if k < |f.refs| && f.refs[k] in s.bulkIdMap {
      var id := s.bulkIdMap[f.refs[k]];
      OfferedIsUnseen(s, f, k, seen);
      if Trouble(s, store, f, k) == None {
        ErrorIsFirstTrouble(s, store, f, k + 1, if f.isGroup && id in seen then seen else seen + {id});
      }
    }
  }

  /**
   Applying the fixup of a survivor keeps it exactly if every reference stands for something, none
   that is offered is refused, no member named is gone, and a user's row is there. Then the references
   are stored beside what was there and nothing else changes but a user's version; otherwise
   the resource is rolled back with the first error met.
   */
  lemma FixupKeepsExactlyIf(s: State, store: Store, f: Fixup)
    requires f.origIdx in s.created && f.origIdx < |s.results| && s.linked.Keys <= s.created.Keys && Surviving(s, f.origIdx)
    ensures var t, i := ApplyFixup(s, store, f), f.origIdx;
            var fits := NoTrouble(s, store, f, 0, |f.refs|) && RowThere(s, f);
            && (Surviving(t, i) <==> fits)
            && (fits ==> OnlyLinks(s, t, i, f.refs) && t.results == Versioned(s.results, store, f))
            && (!fits && s.results[i].Some? ==> t.results[i].Some? && FailsWith(s, store, f, t.results[i].value.status))
  {
    ErrorIsFirstTrouble(s, store, f, 0, {});
    if NoTrouble(s, store, f, 0, |f.refs|) {
      ResolvedAre(s, store, f);
    }
  }

  /** The references are stored in resource i, if its row is there; all else is as it was, but for the results. */
  ghost predicate OnlyLinks(s: State, t: State, i: nat, refs: seq<string>) {
    && t.created == s.created && t.bulkIdMap == s.bulkIdMap && t.rolledBackIds == s.rolledBackIds
    && t.erased == s.erased && t.fixups == s.fixups && t.linked.Keys == s.linked.Keys
    && (forall j | j in s.linked && j != i :: t.linked[j] == s.linked[j])
    && (i in s.linked ==>
          && s.linked[i] <= t.linked[i]
          && (forall r | r in refs :: r in s.bulkIdMap && s.bulkIdMap[r] in t.linked[i])
          && (forall id | id in t.linked[i] :: id in s.linked[i] || exists r :: r in refs && r in s.bulkIdMap && s.bulkIdMap[r] == id))
  }

  lemma ResolvedAre(s: State, store: Store, f: Fixup)
    requires NoTrouble(s, store, f, 0, |f.refs|)
    ensures forall r | r in f.refs :: r in s.bulkIdMap && s.bulkIdMap[r] in Resolved(s.bulkIdMap, f.refs)
  {
    forall k | 0 <= k < |f.refs|
      ensures f.refs[k] in s.bulkIdMap
    {
      assert Trouble(s, store, f, k) == None;
    }
  }

  /** A user's result shows the version after its manager was written. */
  function Versioned(results: seq<Option<Result>>, store: Store, f: Fixup): seq<Option<Result>>
    requires f.origIdx < |results|
  {
    var i := f.origIdx;
    if f.isGroup || results[i].None? then results
    else results[i := Some(Result(results[i].value.status, results[i].value.location, Some(store.version(i))))]
  }

  // ----- a phase in which nothing fails

  /** Nothing has been rolled back or deleted. */
  ghost predicate Untouched(s: State) {
    s.erased == {} && forall i | i in s.created :: !s.created[i].rolledBack
  }

  /** The fixups wait only for POSTs of the request, whose bulkIds their data name. */
  ghost predicate WaitForPosts(b: Bulk, fixups: seq<Fixup>) {
    forall k, r | 0 <= k < |fixups| && r in fixups[k].refs :: Waits(b, fixups[k].origIdx, r)
  }

  ghost predicate Waits(b: Bulk, i: nat, r: string) {
    i < |b.calls| && b.calls[i].IsPost() && r in b.calls[i].deferrable && r in b.producers
  }

  /** Every bulkId declared is that of its producer, which is in the closure of whoever names it. */
  ghost predicate Linked(b: Bulk) {
    && (forall r | r in b.producers :: b.producers[r] < |b.calls| && b.calls[b.producers[r]].IsPost() && b.calls[b.producers[r]].bulkId == r)
    && (forall i: nat, r | Waits(b, i, r) :: i in b.closure && b.producers[r] in b.closure[i])
  }

  ghost predicate AdmitsAll(store: Store) {
    forall i, k :: store.admit(i, k) == None
  }

  ghost predicate AllCreated(b: Bulk, s: State, completed: set<nat>) {
    forall i | i in completed && i < |b.calls| && b.calls[i].IsPost() :: i in s.created
  }

  lemma ReferenceIsBound(b: Bulk, completed: set<nat>, s: State, f: Fixup, r: string)
    requires Linked(b) && Untouched(s) && AllCreated(b, s, completed) && Records(b.calls, s) && Bound(s)
    requires ReadyFor(b.closure, completed, f) && Waits(b, f.origIdx, r)
    ensures r in s.bulkIdMap
  {
    var p := b.producers[r];
    assert p in b.closure[f.origIdx] && p in completed;
    assert Surviving(s, p) && RecordOk(b.calls, s, p);
  }

  lemma OneFixupSucceeds(b: Bulk, completed: set<nat>, s: State, f: Fixup)
    requires Linked(b) && AdmitsAll(b.store) && Untouched(s) && AllCreated(b, s, completed)
    requires Records(b.calls, s) && Bound(s) && Rows(s) && f.origIdx in s.created && f.origIdx < |s.results|
    requires ReadyFor(b.closure, completed, f) && forall r | r in f.refs :: Waits(b, f.origIdx, r)
    ensures Untouched(ApplyFixup(s, b.store, f))
  {
    assert Surviving(s, f.origIdx);
    forall k | 0 <= k < |f.refs|
      ensures Trouble(s, b.store, f, k) == None
    {
      assert f.refs[k] in f.refs;
      ReferenceIsBound(b, completed, s, f, f.refs[k]);
    }
    FixupKeepsExactlyIf(s, b.store, f);
  }

  /** The fixups of a phase are due, and wait for POSTs of the request. */
  ghost predicate Due(b: Bulk, completed: set<nat>, ready: seq<Fixup>) {
    WaitForPosts(b, ready) && forall k | 0 <= k < |ready| :: ReadyFor(b.closure, completed, ready[k])
  }

  lemma NextFixupSucceeds(b: Bulk, completed: set<nat>, s: State, f: Fixup, rest: seq<Fixup>)
    requires Linked(b) && AdmitsAll(b.store) && Trusted(b.calls, b.store) && Untouched(s) && AllCreated(b, s, completed)
    requires Shaky(b.calls, b.producers, b.store, s, [f] + rest) && f.origIdx in s.created && f.origIdx < |s.results|
    requires Due(b, completed, [f])
    ensures Untouched(ApplyFixup(s, b.store, f))
  {
    assert ReadyFor(b.closure, completed, [f][0]);
    forall r | r in f.refs
      ensures Waits(b, f.origIdx, r)
    {
      assert r in [f][0].refs;
    }
    OneFixupSucceeds(b, completed, s, f);
  }

  lemma DueInPart(b: Bulk, completed: set<nat>, ready: seq<Fixup>)
    requires Due(b, completed, ready) && ready != []
    ensures Due(b, completed, ready[..|ready| - 1]) && Due(b, completed, [ready[|ready| - 1]])
  {
    var front, f := ready[..|ready| - 1], ready[|ready| - 1];
    assert forall k | 0 <= k < |front| :: front[k] == ready[k];
    forall r | r in f.refs
      ensures Waits(b, f.origIdx, r)
    {
      assert r in ready[|ready| - 1].refs;
    }
  }

  lemma SplitLast<T>(s: seq<T>, rest: seq<T>)
    requires s != []
    ensures var front, last := s[..|s| - 1], s[|s| - 1]; s == front + [last] && s + rest == front + ([last] + rest)
  {
  }

  lemma {:induction false} FixupsSucceed(b: Bulk, completed: set<nat>, s: State, ready: seq<Fixup>, rest: seq<Fixup>, all: seq<Fixup>)
    requires Linked(b) && AdmitsAll(b.store) && Trusted(b.calls, b.store) && Untouched(s) && AllCreated(b, s, completed)
    requires all == ready + rest && Shaky(b.calls, b.producers, b.store, s, all) && KnownRecords(s, ready)
    requires Due(b, completed, ready)
    ensures Untouched(ApplyFixups(s, b.store, ready))
  {
    if ready != [] {
      var front, f := ready[..|ready| - 1], ready[|ready| - 1];
      SplitLast(ready, rest);
      DueInPart(b, completed, ready);
      FixupsSucceed(b, completed, s, front, [f] + rest, all);
      FixupsKeepPending(b.calls, b.producers, b.store, s, front, [f] + rest, all);
      OneMoreFixup(s, b.store, front, f);
      NextFixupSucceeds(b, completed, ApplyFixups(s, b.store, front), f, rest);
    }
  }

  /** Where nothing is gone, nothing follows it. */
  lemma NothingFollows(u: State, t: State)
    requires Untouched(u) && Compensated(u, t)
    ensures t == u
  {
    var gone :| CompensatedBy(u, t, gone);
    assert RolledBack(u) == {};
    assert Closed(u, {});
    assert RolledBack(u) + gone <= {};
    assert gone == {};
    RollbackSetEmpty(u);
  }

  lemma PhaseSucceeds(b: Bulk, completed: set<nat>, m: State, t: State)
    requires Linked(b) && AdmitsAll(b.store) && Trusted(b.calls, b.store) && SaneAfter(b, completed, m)
    requires Untouched(m) && AllCreated(b, m, completed) && WaitForPosts(b, m.fixups) && Resolves(b, completed, m, t)
    ensures Untouched(t) && AllCreated(b, t, completed) && WaitForPosts(b, t.fixups)
  {
    var ready, rest := Select(m.fixups, b.closure, completed, true), Select(m.fixups, b.closure, completed, false);
    SelectSplits(m.fixups, b.closure, completed);
    if ready != [] {
      var m' := m.(fixups := rest);
      SaneWhateverOrder(b.calls, b.producers, b.store, m, m.fixups, ready + rest, rest);
      StillWait(b, m.fixups, ready, rest);
      FixupsSucceed(b, completed, m', ready, rest, ready + rest);
      FixupsKeepShape(m', b.store, ready);
      NothingFollows(ApplyFixups(m', b.store, ready), t);
    }
  }

  lemma StillWait(b: Bulk, all: seq<Fixup>, ready: seq<Fixup>, rest: seq<Fixup>)
    requires multiset(ready + rest) == multiset(all) && WaitForPosts(b, all)
    ensures WaitForPosts(b, ready) && WaitForPosts(b, rest)
  {
    forall k | 0 <= k < |ready + rest|
      ensures forall r | r in (ready + rest)[k].refs :: Waits(b, (ready + rest)[k].origIdx, r)
    {
      assert (ready + rest)[k] in multiset(all);
      assert (ready + rest)[k] in all;
    }
    assert forall k | 0 <= k < |ready| :: ready[k] == (ready + rest)[k];
    assert forall k | 0 <= k < |rest| :: rest[k] == (ready + rest)[|ready| + k];
  }

  // ----- a run in which nothing fails

  /** The store creates a resource for every POST, each of which has a bulkId and data, and nothing is deleted. */
  ghost predicate CreatesAll(b: Bulk) {
    forall i | 0 <= i < |b.calls| && b.calls[i].Call? ::
      && b.calls[i].verb != Delete
      && (b.calls[i].verb == Post ==> !b.calls[i].blankId && b.calls[i].hasData && b.store.create(i).Created?)
  }

  lemma ProcessSucceeds(b: Bulk, completed: set<nat>, s: State, i: nat)
    requires CreatesAll(b) && Untouched(s) && AllCreated(b, s, completed) && WaitForPosts(b, s.fixups)
    requires i < |b.calls| && b.calls[i].Call? && i < |s.results| && s.linked.Keys <= s.created.Keys
    ensures var m := Process(s, b.calls[i], b.producers, b.store, i);
            Untouched(m) && AllCreated(b, m, completed + {i}) && WaitForPosts(b, m.fixups)
  {
    var op, m := b.calls[i], Process(s, b.calls[i], b.producers, b.store, i);
    if op.verb == Post {
      assert Creates(s.bulkIdMap, s.erased, op, b.store, i);
      var deferred := DeferredRefs(op, b.producers, s.bulkIdMap, op.deferrable);
      forall k, r | 0 <= k < |m.fixups| && r in m.fixups[k].refs
        ensures Waits(b, m.fixups[k].origIdx, r)
      {
        if k == |s.fixups| {
          assert m.fixups[k] == Fixup(i, op.isGroup, deferred);
        } else {
          assert m.fixups[k] == s.fixups[k];
        }
      }
    }
  }

  lemma RoundSucceeds(b: Bulk, completed: set<nat>, i: nat, s: State, t: State)
    requires Linked(b) && AdmitsAll(b.store) && CreatesAll(b) && Trusted(b.calls, b.store)
    requires SaneAfter(b, completed, s) && i !in completed && Round(b, completed, i, s, t)
    requires Untouched(s) && AllCreated(b, s, completed) && WaitForPosts(b, s.fixups)
    ensures Untouched(t) && AllCreated(b, t, completed + {i}) && WaitForPosts(b, t.fixups)
  {
    if b.calls[i].Call? {
      ProcessIsSane(b, completed, i, s);
      ProcessSucceeds(b, completed, s, i);
      PhaseSucceeds(b, completed + {i}, Process(s, b.calls[i], b.producers, b.store, i), t);
    }
  }

  lemma NextSucceeds(b: Bulk, order: seq<nat>, states: seq<State>, k: nat)
    requires Linked(b) && AdmitsAll(b.store) && CreatesAll(b) && Trusted(b.calls, b.store)
    requires IsTrace(b, order, states) && Distinct(order) && k < |order|
    requires Untouched(states[k]) && AllCreated(b, states[k], Elements(order[..k])) && WaitForPosts(b, states[k].fixups)
    ensures Untouched(states[k + 1]) && AllCreated(b, states[k + 1], Elements(order[..k + 1])) && WaitForPosts(b, states[k + 1].fixups)
  {
    TraceIsSane(b, order, states, k);
    TraceStep(b, order, states, k);
    RoundSucceeds(b, Elements(order[..k]), order[k], states[k], states[k + 1]);
  }

  lemma {:induction false} TraceSucceeds(b: Bulk, order: seq<nat>, states: seq<State>, k: nat)
    requires Linked(b) && AdmitsAll(b.store) && CreatesAll(b) && Trusted(b.calls, b.store)
    requires IsTrace(b, order, states) && Distinct(order) && k <= |order|
    ensures Untouched(states[k]) && AllCreated(b, states[k], Elements(order[..k])) && WaitForPosts(b, states[k].fixups)
  {
    if k == 0 {
      assert Elements(order[..0]) == {};
    } else {
      TraceSucceeds(b, order, states, k - 1);
      NextSucceeds(b, order, states, k - 1);
    }
  }

  // ----- the request

  /** Each POST has a bulkId and data, and the store creates it; nothing is deleted. */
  ghost predicate Welcome(ops: seq<Operation>, store: Store) {
    && AdmitsAll(store) && PlainlyWritten(ops) && Trusted(Calls(ops), store)
    && forall i | 0 <= i < |ops| && ops[i].Operation? ::
         && !EqualFold(TrimSpace(ops[i].verb), "DELETE")
         && (ops[i].IsPost() ==> TrimSpace(ops[i].bulkId) != "" && ops[i].hasData && store.create(i).Created?)
  }

  lemma WelcomeCreates(ops: seq<Operation>, store: Store)
    requires Welcome(ops, store)
    ensures CreatesAll(BulkOf(ops, store))
  {
    var b := BulkOf(ops, store);
    forall i | 0 <= i < |b.calls| && b.calls[i].Call?
      ensures b.calls[i].verb != Delete
      ensures b.calls[i].verb == Post ==> !b.calls[i].blankId && b.calls[i].hasData && store.create(i).Created?
    {
      assert b.calls[i] == CallOf(ops[i]);
    }
  }

  /** What a task and a call have in common. */
  lemma SameOperation(ops: seq<Operation>, i: nat)
    requires i < |ops|
    ensures var task, c := Views(ops)[i], Calls(ops)[i];
            && (c.IsPost() <==> ops[i].IsPost()) && task.declares == ops[i].Declares()
            && (c.Call? ==> c.bulkId == ops[i].bulkId && forall r | r in c.deferrable :: r in task.refs)
  {
    assert Views(ops)[i] == View(ops[i]) && Calls(ops)[i] == CallOf(ops[i]);
    if ops[i].Operation? {
      assert forall r | r in ops[i].deferrable :: r in ops[i].Refs();
    }
  }

  lemma PostIsProducer(ops: seq<Operation>, store: Store, i: nat)
    requires Welcome(ops, store) && i < |ops| && ops[i].IsPost()
    ensures var d := ops[i].bulkId; d in Producers(Views(ops)) && Producers(Views(ops))[d] == i
  {
    var d, tasks := ops[i].bulkId, Views(ops);
    ProducersAreFirst(tasks);
    SameOperation(ops, i);
    assert ops[i].Declares() == Some(d);
    assert tasks[i].declares.value in Producers(tasks);
    var p := Producers(tasks)[d];
    ProducerDeclares(ops, store, d);
    assert Declaring(Calls(ops)[i]) && Declaring(Calls(ops)[p]) by {
      SameOperation(ops, p);
      assert Calls(ops)[i] == CallOf(ops[i]) && Calls(ops)[p] == CallOf(ops[p]);
    }
    OneOfEach(Calls(ops), i, p);
  }

  lemma OneOfEach(calls: seq<Call>, i: nat, p: nat)
    requires DistinctBulkIds(calls) && i < |calls| && p < |calls| && Declaring(calls[i]) && Declaring(calls[p])
    requires calls[i].bulkId == calls[p].bulkId
    ensures i == p
  {
  }

  lemma ProducerDeclares(ops: seq<Operation>, store: Store, r: string)
    requires Welcome(ops, store) && r in Producers(Views(ops))
    ensures var p := Producers(Views(ops))[r]; p < |ops| && ops[p].IsPost() && ops[p].bulkId == r && Calls(ops)[p].IsPost() && Calls(ops)[p].bulkId == r
  {
    ProducersAreFirst(Views(ops));
    var p := Producers(Views(ops))[r];
    SameOperation(ops, p);
    assert ops[p].Declares() == Some(r);
    DeclaringIsPost(ops[p]);
  }

  lemma WelcomeIsLinked(ops: seq<Operation>, store: Store)
    requires Welcome(ops, store)
    ensures Linked(BulkOf(ops, store))
  {
    var b, tasks := BulkOf(ops, store), Views(ops);
    forall r | r in b.producers
      ensures b.producers[r] < |b.calls| && b.calls[b.producers[r]].IsPost() && b.calls[b.producers[r]].bulkId == r
    {
      ProducerDeclares(ops, store, r);
    }
    forall i: nat, r | Waits(b, i, r)
      ensures i in b.closure && b.producers[r] in b.closure[i]
    {
      SameOperation(ops, i);
      PostIsProducer(ops, store, i);
      NamedIsReached(tasks, i, ops[i].bulkId, r);
    }
  }

  lemma NamedIsReached(tasks: seq<Task>, i: nat, d: string, r: string)
    requires i < |tasks| && d in Producers(tasks) && Producers(tasks)[d] == i && r in tasks[i].refs && r in Producers(tasks)
    ensures i in ClosureTable(tasks) && Producers(tasks)[r] in ClosureTable(tasks)[i]
  {
    var g := DirectDeps(tasks);
    assert Producers(tasks)[r] in g[i];
    ReachSetIsClosed(g, i);
  }

  /**
   If the store creates every POST and admits every reference, and nothing is deleted, then however
   the POSTs name each other nothing is rolled back in a full run, and every POST ends as a 201.
   */
  lemma EveryPostSucceeds(ops: seq<Operation>, store: Store, failOnErrors: int, order: seq<nat>, states: seq<State>, end: State, i: nat)
    requires Welcome(ops, store) && Ends(ops, store, failOnErrors, order, states, end) && |states| == |order| + 1
    requires i < |ops| && ops[i].IsPost()
    ensures end.rolledBackIds == {} && end.erased == {} && |end.results| == |ops|
    ensures Surviving(end, i) && end.created[i].id == store.create(i).id
    ensures end.results[i].Some? && end.results[i].value.status == 201
    ensures end.results[i].value.location == Some(OfCreated(store.create(i).id))
    ensures ops[i].bulkId in end.bulkIdMap && end.bulkIdMap[ops[i].bulkId] == store.create(i).id
  {
    var b := BulkOf(ops, store);
    WelcomeCreates(ops, store);
    WelcomeIsLinked(ops, store);
    EveryOperationOnce(Views(ops), order);
    assert order[..|order|] == order;
    TraceSucceeds(b, order, states, |order|);
    TraceIsSane(b, order, states, |order|);
    RunKeepsPromises(ops, store, failOnErrors, order, states, end);
    SameOperation(ops, i);
    Remaining(order, |ops|);
    assert Surviving(end, i) && RecordOk(b.calls, end, i) && Origin(b.calls, store, end.created[i], i);
    assert forall j, d :: !RolledBackAs(end, j, d);
  }

  // ----- two groups that name each other

  function MutualGroups(d: string, e: string): seq<Operation> {
    [GroupPost(d, [e]), GroupPost(e, [d])]
  }

  /** A complete POST of a group, as the scheduler and the executor see it. */
  ghost predicate FinePost(x: Operation, d: string, e: string) {
    && x.IsPost() && x.hasData && x.bulkId == d && x.Declares() == Some(d) && d != "" && TrimSpace(d) == d
    && !EqualFold(TrimSpace(x.verb), "DELETE") && View(x).declares == Some(d)
    && PlainCall(CallOf(x), d) && CallOf(x).deferrable == [e]
  }

  lemma GroupPostIsFine(d: string, e: string)
    requires d != "" && TrimSpace(d) == d
    ensures FinePost(GroupPost(d, [e]), d, e)
  {
    var x := GroupPost(d, [e]);
    GroupPostViews(d, [e]);
    assert x.Declares() == Some(d);
    DeclaringIsPost(x);
    assert TrimSpace("POST") == "POST";
    assert |ToLower("POST")| == 4 && |ToLower("DELETE")| == 6;
  }

  lemma FinePostsAreWelcome(ops: seq<Operation>, d: string, e: string, store: Store)
    requires |ops| == 2 && d != e && FinePost(ops[0], d, e) && FinePost(ops[1], e, d)
    requires FreshIds(store) && AdmitsAll(store) && store.create(0).Created? && store.create(1).Created?
    ensures Welcome(ops, store)
  {
    var calls := Calls(ops);
    assert calls[0] == CallOf(ops[0]) && calls[1] == CallOf(ops[1]);
    assert DistinctBulkIds(calls);
    forall i | 0 <= i < |ops|
      ensures ops[i].IsPost() && ops[i].Declares() == Some(ops[i].bulkId) && TrimSpace(ops[i].bulkId) != ""
      ensures ops[i].hasData && store.create(i).Created? && !EqualFold(TrimSpace(ops[i].verb), "DELETE")
    {
      assert i == 0 || i == 1;
    }
  }

  lemma FinePostsAreWanted(ops: seq<Operation>, d: string, e: string)
    requires |ops| == 2 && d != e && FinePost(ops[0], d, e) && FinePost(ops[1], e, d)
    ensures var calls, producers := Calls(ops), Producers(Views(ops));
            && calls[0].IsPost() && calls[0].bulkId == d && Wanted(calls, producers, 0, e)
            && calls[1].IsPost() && calls[1].bulkId == e && Wanted(calls, producers, 1, d)
  {
    var tasks := Views(ops);
    assert Calls(ops)[0] == CallOf(ops[0]) && Calls(ops)[1] == CallOf(ops[1]);
    assert tasks[0] == View(ops[0]) && tasks[1] == View(ops[1]);
    ProducersAreFirst(tasks);
    assert tasks[0].declares.value in Producers(tasks) && tasks[1].declares.value in Producers(tasks);
  }

  lemma NothingChanges(b: Bulk, order: seq<nat>, states: seq<State>, n: nat, id: ResourceId)
    requires forall i | 0 <= i < |b.calls| :: b.calls[i].IsPost()
    ensures !Changed(b, order, states, n, id)
  {
  }

  /** Section 3.7.1 of RFC 7644: two groups, each a member of the other, are created in every full run, each with the other as member. */
  lemma MutualGroupsSucceed(d: string, e: string, store: Store, failOnErrors: int, order: seq<nat>, states: seq<State>, end: State)
    requires d != e && d != "" && TrimSpace(d) == d && e != "" && TrimSpace(e) == e
    requires FreshIds(store) && AdmitsAll(store) && store.create(0).Created? && store.create(1).Created?
    requires Ends(MutualGroups(d, e), store, failOnErrors, order, states, end) && |states| == |order| + 1
    ensures |end.results| == 2 && end.results[0].Some? && end.results[1].Some?
    ensures end.results[0].value.status == 201 && end.results[1].value.status == 201
    ensures Stored(end, 0, store.create(1).id) && Stored(end, 1, store.create(0).id)
  {
    GroupPostIsFine(d, e);
    GroupPostIsFine(e, d);
    FinePostsSucceed(MutualGroups(d, e), d, e, store, failOnErrors, order, states, end);
  }

  lemma FinePostsSucceed(ops: seq<Operation>, d: string, e: string, store: Store, failOnErrors: int, order: seq<nat>, states: seq<State>, end: State)
    requires |ops| == 2 && d != e && FinePost(ops[0], d, e) && FinePost(ops[1], e, d)
    requires FreshIds(store) && AdmitsAll(store) && store.create(0).Created? && store.create(1).Created?
    requires Ends(ops, store, failOnErrors, order, states, end) && |states| == |order| + 1
    ensures |end.results| == 2 && end.results[0].Some? && end.results[1].Some?
    ensures end.results[0].value.status == 201 && end.results[1].value.status == 201
    ensures Stored(end, 0, store.create(1).id) && Stored(end, 1, store.create(0).id)
  {
    FinePostsAreWelcome(ops, d, e, store);
    FinePostsAreWanted(ops, d, e);
    EveryPostSucceeds(ops, store, failOnErrors, order, states, end, 0);
    EveryPostSucceeds(ops, store, failOnErrors, order, states, end, 1);
    StaysStored(ops, store, failOnErrors, order, states, end, 0, e);
    StaysStored(ops, store, failOnErrors, order, states, end, 1, d);
  }

  /** Where all operations are POSTs, what is stored stays. */
  lemma StaysStored(ops: seq<Operation>, store: Store, failOnErrors: int, order: seq<nat>, states: seq<State>, end: State, i: nat, r: string)
    requires Ends(ops, store, failOnErrors, order, states, end) && Trusted(Calls(ops), store)
    requires forall j | 0 <= j < |ops| :: Calls(ops)[j].IsPost()
    requires i < |ops| && Calls(ops)[i].IsPost() && Surviving(end, i) && Wanted(Calls(ops), Producers(Views(ops)), i, r)
    ensures r in end.bulkIdMap && Stored(end, i, end.bulkIdMap[r])
  {
    var b, n := BulkOf(ops, store), |states| - 1;
    EveryOperationOnce(Views(ops), order);
    StoredUnlessTouched(b, order, failOnErrors, states, end, i, r);
    NothingChanges(b, order[..n], states, n, end.created[i].id);
    NothingChanges(b, order[..n], states, n, end.bulkIdMap[r]);
    DeletionChanges(b, order[..n], states, n, end.bulkIdMap[r]);
  }
}
