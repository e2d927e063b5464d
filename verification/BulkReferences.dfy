/**
 What a bulk request's references come to: the identifiers stored at the end of a run,
 in terms of the operations that ran.
 */
module BulkReferences {
  import opened Text
  import opened BulkRequest
  import opened BulkSchedule
  import opened BulkState
  import opened BulkCascade
  import opened BulkRun
  import opened BulkTrace

  // ----- what the operations of a run did to resources the request created

  ghost predicate Known(s: State, id: ResourceId) {
    exists i :: i in s.created && s.created[i].id == id
  }

  /** The k-th operation is a PUT, PATCH or DELETE that succeeds on a resource created before. */
  ghost predicate Changes(b: Bulk, order: seq<nat>, states: seq<State>, k: nat, id: ResourceId) {
    && k < |order| && k < |states| && order[k] < |b.calls| && b.calls[order[k]].Call?
    && Updates(states[k].bulkIdMap, states[k].erased, b.calls[order[k]], b.store, order[k])
    && TargetId(b.calls[order[k]], states[k].bulkIdMap) == Some(id) && Known(states[k], id)
  }

  ghost predicate Deletes(b: Bulk, order: seq<nat>, states: seq<State>, k: nat, id: ResourceId) {
    Changes(b, order, states, k, id) && b.calls[order[k]].verb == Delete
  }

  ghost predicate Changed(b: Bulk, order: seq<nat>, states: seq<State>, upTo: nat, id: ResourceId) {
    exists k :: 0 <= k < upTo && Changes(b, order, states, k, id)
  }

  ghost predicate Deleted(b: Bulk, order: seq<nat>, states: seq<State>, upTo: nat, id: ResourceId) {
    exists k :: 0 <= k < upTo && Deletes(b, order, states, k, id)
  }

  // ----- a phase of compensation erases only what it rolls back

  ghost predicate GoneRecord(s: State, id: ResourceId) {
    exists i :: i in s.created && s.created[i].rolledBack && s.created[i].id == id
  }

  /** The same resource, perhaps rolled back meanwhile, and then erased. */
  ghost predicate SameRecord(a: CreatedPost, b: CreatedPost, erased: set<ResourceId>) {
    a.id == b.id && (a.rolledBack ==> b.rolledBack) && (b.rolledBack ==> a.rolledBack || b.id in erased)
  }

  ghost predicate OnlyRollsBack(s: State, t: State) {
    && t.created.Keys == s.created.Keys && (forall i | i in s.created :: SameRecord(s.created[i], t.created[i], t.erased))
    && t.rewritten.Keys == s.rewritten.Keys && s.erased <= t.erased
    && forall id | id in t.erased :: id in s.erased || GoneRecord(t, id)
  }

  lemma OnlyRollsBackTwice(s: State, t: State, u: State)
    requires OnlyRollsBack(s, t) && OnlyRollsBack(t, u)
    ensures OnlyRollsBack(s, u)
  {
    forall i | i in s.created
      ensures SameRecord(s.created[i], u.created[i], u.erased)
    {
      assert SameRecord(s.created[i], t.created[i], t.erased) && SameRecord(t.created[i], u.created[i], u.erased);
    }
    forall id | id in u.erased
      ensures id in s.erased || GoneRecord(u, id)
    {
      if id in t.erased && id !in s.erased {
        var i :| i in t.created && t.created[i].rolledBack && t.created[i].id == id;
        assert SameRecord(t.created[i], u.created[i], u.erased);
      }
    }
  }

  lemma FixupOnlyRollsBack(s: State, store: Store, f: Fixup)
    requires f.origIdx in s.created && f.origIdx < |s.results| && s.linked.Keys <= s.created.Keys
    ensures OnlyRollsBack(s, ApplyFixup(s, store, f))
  {
    var t := ApplyFixup(s, store, f);
    forall id | id in t.erased && id !in s.erased
      ensures GoneRecord(t, id)
    {
      assert t.created[f.origIdx].rolledBack && t.created[f.origIdx].id == id;
    }
  }

  lemma {:induction false} FixupsOnlyRollBack(s: State, store: Store, fixups: seq<Fixup>)
    requires KnownRecords(s, fixups)
    ensures OnlyRollsBack(s, ApplyFixups(s, store, fixups))
  {
    if fixups != [] {
      var front, f := fixups[..|fixups| - 1], fixups[|fixups| - 1];
      FixupsOnlyRollBack(s, store, front);
      FixupOnlyRollsBack(ApplyFixups(s, store, front), store, f);
      OnlyRollsBackTwice(s, ApplyFixups(s, store, front), ApplyFixups(s, store, fixups));
    }
  }

  lemma PhaseOnlyRollsBack(store: Store, s: State, ready: seq<Fixup>, rest: seq<Fixup>, t: State)
    requires Phase(store, s, ready, rest, t)
    ensures OnlyRollsBack(s, t)
  {
    var m := s.(fixups := rest);
    FixupsOnlyRollBack(m, store, ready);
    var u := ApplyFixups(m, store, ready);
    var gone :| CompensatedBy(u, t, gone);
    forall id | id in t.erased && id !in u.erased
      ensures GoneRecord(t, id)
    {
      var i :| i in gone && u.created[i].id == id;
      assert t.created[i].rolledBack && t.created[i].id == id;
    }
    assert OnlyRollsBack(u, t);
    OnlyRollsBackTwice(m, u, t);
    assert OnlyRollsBack(s, m);
    OnlyRollsBackTwice(s, m, t);
  }

  // ----- what is erased and rewritten, operation by operation

  /** What is known to be gone was deleted or rolled back, and what was is gone; and only a change rewrites. */
  ghost predicate Explained(b: Bulk, order: seq<nat>, states: seq<State>, k: nat, s: State) {
    && (forall id | id in s.erased && Known(s, id) :: Deleted(b, order, states, k, id) || GoneRecord(s, id))
    && (forall id | Deleted(b, order, states, k, id) :: id in s.erased && Known(s, id))
    && (forall id | GoneRecord(s, id) :: id in s.erased)
    && (forall i | i in s.rewritten :: i in s.created && Changed(b, order, states, k, s.created[i].id))
  }

  lemma RollingBackIsExplained(b: Bulk, order: seq<nat>, states: seq<State>, k: nat, s: State, t: State)
    requires Explained(b, order, states, k, s) && OnlyRollsBack(s, t)
    ensures Explained(b, order, states, k, t)
  {
    forall id
      ensures Known(s, id) <==> Known(t, id)
      ensures GoneRecord(s, id) ==> GoneRecord(t, id)
    {
      if Known(s, id) {
        var i :| i in s.created && s.created[i].id == id;
        assert SameRecord(s.created[i], t.created[i], t.erased);
      }
      if Known(t, id) {
        var i :| i in t.created && t.created[i].id == id;
        assert SameRecord(s.created[i], t.created[i], t.erased);
      }
      if GoneRecord(s, id) {
        var i :| i in s.created && s.created[i].rolledBack && s.created[i].id == id;
        assert SameRecord(s.created[i], t.created[i], t.erased);
      }
    }
    forall id | GoneRecord(t, id)
      ensures id in t.erased
    {
      var i :| i in t.created && t.created[i].rolledBack && t.created[i].id == id;
      assert SameRecord(s.created[i], t.created[i], t.erased);
      assert s.created[i].rolledBack ==> GoneRecord(s, id);
    }
    forall i | i in t.rewritten
      ensures i in t.created && Changed(b, order, states, k, t.created[i].id)
    {
      assert SameRecord(s.created[i], t.created[i], t.erased);
    }
  }

  lemma LongerHistory(b: Bulk, order: seq<nat>, states: seq<State>, k: nat)
    ensures forall id :: Changed(b, order, states, k + 1, id) <==> Changed(b, order, states, k, id) || Changes(b, order, states, k, id)
    ensures forall id :: Deleted(b, order, states, k + 1, id) <==> Deleted(b, order, states, k, id) || Deletes(b, order, states, k, id)
  {
    forall id
      ensures Changed(b, order, states, k + 1, id) <==> Changed(b, order, states, k, id) || Changes(b, order, states, k, id)
      ensures Deleted(b, order, states, k + 1, id) <==> Deleted(b, order, states, k, id) || Deletes(b, order, states, k, id)
    {
      if Changed(b, order, states, k + 1, id) {
        var j :| 0 <= j < k + 1 && Changes(b, order, states, j, id);
      }
      if Deleted(b, order, states, k + 1, id) {
        var j :| 0 <= j < k + 1 && Deletes(b, order, states, j, id);
      }
    }
  }

  lemma ProcessIsExplained(b: Bulk, order: seq<nat>, states: seq<State>, k: nat)
    requires k < |order| && k < |states| && order[k] < |b.calls| && b.calls[order[k]].Call?
    requires Trusted(b.calls, b.store) && FromStore(b.calls, b.store, states[k]) && order[k] !in states[k].created
    requires order[k] < |states[k].results| && states[k].linked.Keys <= states[k].created.Keys
    requires Explained(b, order, states, k, states[k])
    ensures Explained(b, order, states, k + 1, Process(states[k], b.calls[order[k]], b.producers, b.store, order[k]))
  {
    LongerHistory(b, order, states, k);
    var s, i := states[k], order[k];
    var op := b.calls[i];
    if Creates(s.bulkIdMap, s.erased, op, b.store, i) {
      CreateIsExplained(b, order, states, k, s, i);
    } else if Updates(s.bulkIdMap, s.erased, op, b.store, i) {
      UpdateIsExplained(b, order, states, k, TargetId(op, s.bulkIdMap).value);
    } else {
      var t := Process(s, op, b.producers, b.store, i);
      assert forall id :: (Known(s, id) <==> Known(t, id)) && (GoneRecord(s, id) <==> GoneRecord(t, id));
    }
  }

  lemma NewIsUnknown(b: Bulk, s: State, i: nat)
    requires i < |b.calls| && b.store.create(i).Created? && FreshIds(b.store)
    requires FromStore(b.calls, b.store, s) && i !in s.created
    ensures !Known(s, b.store.create(i).id)
  {
    forall j | j in s.created
      ensures s.created[j].id != b.store.create(i).id
    {
      assert Origin(b.calls, b.store, s.created[j], j);
    }
  }

  /** A created resource is known from then on and is not rolled back. */
  lemma CreateKnows(s: State, op: Call, producers: map<string, nat>, i: nat, id: ResourceId, version: nat, x: ResourceId)
    requires op.Call? && i < |s.results| && i !in s.created
    ensures var t := Create(s, op, producers, i, id, version);
            (Known(t, x) <==> Known(s, x) || x == id) && (GoneRecord(t, x) <==> GoneRecord(s, x))
  {
    var t := Create(s, op, producers, i, id, version);
    assert t.created[i].id == id && !t.created[i].rolledBack;
    forall j | j in s.created
      ensures t.created[j] == s.created[j]
    {
    }
    if Known(s, x) {
      var j :| j in s.created && s.created[j].id == x;
      assert t.created[j].id == x;
    }
    if GoneRecord(s, x) {
      var j :| j in s.created && s.created[j].rolledBack && s.created[j].id == x;
      assert t.created[j].rolledBack && t.created[j].id == x;
    }
    if GoneRecord(t, x) {
      var j :| j in t.created && t.created[j].rolledBack && t.created[j].id == x;
      assert j in s.created;
    }
  }

  lemma CreateIsExplained(b: Bulk, order: seq<nat>, states: seq<State>, k: nat, s: State, i: nat)
    requires i < |b.calls| && b.calls[i].Call? && i < |s.results|
    requires Trusted(b.calls, b.store) && FromStore(b.calls, b.store, s) && i !in s.created
    requires Creates(s.bulkIdMap, s.erased, b.calls[i], b.store, i) && Explained(b, order, states, k, s)
    ensures Explained(b, order, states, k, Create(s, b.calls[i], b.producers, i, b.store.create(i).id, b.store.create(i).version))
  {
    var id, version := b.store.create(i).id, b.store.create(i).version;
    NewIsUnknown(b, s, i);
    forall x
      ensures var t := Create(s, b.calls[i], b.producers, i, id, version);
              (Known(t, x) <==> Known(s, x) || x == id) && (GoneRecord(t, x) <==> GoneRecord(s, x)) && (GoneRecord(s, x) ==> Known(s, x))
    {
      CreateKnows(s, b.calls[i], b.producers, i, id, version, x);
    }
  }

  lemma UpdateIsExplained(b: Bulk, order: seq<nat>, states: seq<State>, k: nat, id: ResourceId)
    requires k < |order| && k < |states| && order[k] < |b.calls| && b.calls[order[k]].Call?
    requires order[k] < |states[k].results| && states[k].linked.Keys <= states[k].created.Keys
    requires Updates(states[k].bulkIdMap, states[k].erased, b.calls[order[k]], b.store, order[k])
    requires TargetId(b.calls[order[k]], states[k].bulkIdMap) == Some(id)
    requires Explained(b, order, states, k, states[k])
    ensures var op := b.calls[order[k]];
            Explained(b, order, states, k + 1, Update(states[k], op.verb, order[k], id, b.store.leaves(order[k]),
                                                      UpdateResult(op, b.store.update(order[k]).version)))
  {
    LongerHistory(b, order, states, k);
    var s, op := states[k], b.calls[order[k]];
    var t := Update(s, op.verb, order[k], id, b.store.leaves(order[k]), UpdateResult(op, b.store.update(order[k]).version));
    forall x
      ensures (Known(s, x) <==> Known(t, x)) && (GoneRecord(s, x) <==> GoneRecord(t, x))
      ensures Known(s, x) ==> (Changes(b, order, states, k, x) <==> x == id)
    {
    }
    forall i | i in t.rewritten
      ensures i in t.created && Changed(b, order, states, k + 1, t.created[i].id)
    {
      if i !in s.rewritten {
        assert s.created[i].id == id && Known(s, id);
      }
    }
  }

  lemma RoundIsExplained(b: Bulk, order: seq<nat>, states: seq<State>, k: nat)
    requires k < |order| && k + 1 < |states| && Trusted(b.calls, b.store)
    requires Round(b, Elements(order[..k]), order[k], states[k], states[k + 1])
    requires SaneAfter(b, Elements(order[..k]), states[k]) && order[k] !in order[..k]
    requires Explained(b, order, states, k, states[k])
    ensures Explained(b, order, states, k + 1, states[k + 1])
  {
    var s, t, i := states[k], states[k + 1], order[k];
    LongerHistory(b, order, states, k);
    if b.calls[i].Call? {
      CreatedAreCompleted(b.calls, s, Elements(order[..k]));
      ProcessIsExplained(b, order, states, k);
      var m := Process(s, b.calls[i], b.producers, b.store, i);
      var completed := Elements(order[..k]) + {i};
      var ready, rest := Select(m.fixups, b.closure, completed, true), Select(m.fixups, b.closure, completed, false);
      if ready != [] {
        PhaseOnlyRollsBack(b.store, m, ready, rest, t);
        RollingBackIsExplained(b, order, states, k + 1, m, t);
      }
    }
  }

  lemma {:induction false} TraceIsExplained(b: Bulk, order: seq<nat>, states: seq<State>, k: nat)
    requires IsTrace(b, order, states) && Distinct(order) && Trusted(b.calls, b.store) && k <= |order|
    ensures Explained(b, order, states, k, states[k])
  {
    if k > 0 {
      TraceIsExplained(b, order, states, k - 1);
      TraceIsSane(b, order, states, k - 1);
      TraceStep(b, order, states, k - 1);
      RoundIsExplained(b, order, states, k - 1);
    }
  }

  // ----- the references at the end of a run

  /**
   At the end of every run a reference of a resource that was not rolled back stands for an
   identifier. It is stored if no later PUT, PATCH or DELETE of the request changed the
   resource or, when it is a group, deleted the member named; after such a deletion it is not.
   */
  lemma StoredUnlessTouched(b: Bulk, order: seq<nat>, failOnErrors: int, states: seq<State>, end: State, i: nat, r: string)
    requires Distinct(order) && RunsTo(b, order, failOnErrors, states, end) && Trusted(b.calls, b.store)
    requires Surviving(end, i) && i < |b.calls| && b.calls[i].Call? && Wanted(b.calls, b.producers, i, r)
    ensures r in end.bulkIdMap
    ensures var rec, named, n := end.created[i], end.bulkIdMap[r], |states| - 1;
            var memberGone := rec.isGroup && Deleted(b, order[..n], states, n, named);
            && (!Changed(b, order[..n], states, n, rec.id) && !memberGone ==> Stored(end, i, named))
            && (Deleted(b, order[..n], states, n, rec.id) || memberGone ==> !Stored(end, i, named))
  {
    var n := |states| - 1;
    RunEndsSane(b, order, failOnErrors, states, end);
    assert Honoured(end, i, r);
    RunIsExplained(b, order, failOnErrors, states, end);
    NotGone(b, end, i);
    var p :| SurvivingAs(end, p, r, end.bulkIdMap[r]);
    NotGone(b, end, p);
    DeletionChanges(b, order[..n], states, n, end.created[i].id);
  }

  lemma DeletionChanges(b: Bulk, order: seq<nat>, states: seq<State>, n: nat, id: ResourceId)
    ensures Deleted(b, order, states, n, id) ==> Changed(b, order, states, n, id)
  {
    if Deleted(b, order, states, n, id) {
      var k :| 0 <= k < n && Deletes(b, order, states, k, id);
    }
  }

  lemma RunIsExplained(b: Bulk, order: seq<nat>, failOnErrors: int, states: seq<State>, end: State)
    requires Distinct(order) && RunsTo(b, order, failOnErrors, states, end) && Trusted(b.calls, b.store)
    ensures var n := |states| - 1; Explained(b, order[..n], states, n, end)
  {
    var n := |states| - 1;
    TraceIsExplained(b, order[..n], states, n);
    if states[n].fixups != [] {
      PhaseOnlyRollsBack(b.store, states[n], states[n].fixups, [], end);
      RollingBackIsExplained(b, order[..n], states, n, states[n], end);
    }
  }

  lemma NotGone(b: Bulk, s: State, i: nat)
    requires Trusted(b.calls, b.store) && FromStore(b.calls, b.store, s) && Surviving(s, i)
    ensures Known(s, s.created[i].id) && !GoneRecord(s, s.created[i].id)
  {
    RecordsAreUnique(b.calls, b.store, s);
    forall j | j in s.created && j != i
      ensures s.created[j].id != s.created[i].id
    {
      assert Differ(s.created[j], s.created[i]);
    }
  }

  // ----- what a survivor depends on

  /** Data that name another POST of the request do so where a reference can wait. */
  ghost predicate NoLateReference(calls: seq<Call>, producers: map<string, nat>) {
    forall i, j | 0 <= i < |calls| && 0 <= j < |calls| && i != j && calls[i].IsPost() && calls[j].IsPost()
                  && calls[j].bulkId in calls[i].DataRefs() :: Wanted(calls, producers, i, calls[j].bulkId)
  }

  /** A bulkId whose resource was rolled back is that of a POST that left nothing, and stands for nothing. */
  lemma GoneStandsForNothing(calls: seq<Call>, store: Store, s: State, d: string)
    requires Trusted(calls, store) && Records(calls, s) && FromStore(calls, store, s) && Bound(s)
    requires d in s.rolledBackIds
    ensures d !in s.bulkIdMap
    ensures exists j :: 0 <= j < |calls| && calls[j].IsPost() && !calls[j].blankId && calls[j].bulkId == d && !Surviving(s, j)
  {
    RecordsAreUnique(calls, store, s);
    var j :| RolledBackAs(s, j, d);
    assert Origin(calls, store, s.created[j], j);
    forall k | k in s.created && k != j
      ensures s.created[k].bulkId != d
    {
      assert Differ(s.created[k], s.created[j]);
    }
    assert forall k, id :: !SurvivingAs(s, k, d, id);
  }

  /** Then no survivor of a run depends on anything that was rolled back. */
  lemma SettledAtTheEnd(calls: seq<Call>, producers: map<string, nat>, store: Store, end: State)
    requires Sane(calls, producers, store, end, [])
    ensures Trusted(calls, store) && NoLateReference(calls, producers) ==> Settled(end)
  {
    if Trusted(calls, store) && NoLateReference(calls, producers) {
      forall i, d | Surviving(end, i) && d in end.created[i].deps
        ensures d !in end.rolledBackIds
      {
        assert RecordOk(calls, end, i) && Origin(calls, store, end.created[i], i);
        if d in end.rolledBackIds {
          GoneStandsForNothing(calls, store, end, d);
        }
      }
    }
  }
}
