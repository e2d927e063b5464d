/**
 What a run of the executor is, as a relation: the state before and after each operation of
 the schedule and the state the run ends in; that a request has one run, and what holds of
 every state in it.
 */
module BulkTrace {
  import opened Text
  import opened BulkRequest
  import opened BulkSchedule
  import opened BulkState
  import opened BulkCascade
  import opened BulkRun

  // ----- the fixups of a state, in whatever order

  lemma PendingSame(a: seq<Fixup>, b: seq<Fixup>, i: nat, r: string)
    requires multiset(a) == multiset(b) && Pending(a, i, r)
    ensures Pending(b, i, r)
  {
    var k :| 0 <= k < |a| && a[k].origIdx == i && r in a[k].refs;
    assert a[k] in multiset(a);
    assert a[k] in b;
    var j :| 0 <= j < |b| && b[j] == a[k];
  }

  /** Which list the pending fixups are kept in, and in what order, does not matter. */
  lemma SaneWhateverOrder(calls: seq<Call>, producers: map<string, nat>, store: Store, s: State, a: seq<Fixup>, b: seq<Fixup>, kept: seq<Fixup>)
    requires Sane(calls, producers, store, s, a) && multiset(a) == multiset(b)
    ensures Sane(calls, producers, store, s.(fixups := kept), b)
  {
    var t := s.(fixups := kept);
    forall k | 0 <= k < |b|
      ensures ForRecord(t, b[k])
    {
      assert b[k] in multiset(a);
      assert b[k] in a;
      assert ForRecord(s, b[k]);
    }
    RecordsIgnoreFixups(calls, s, kept);
    OriginsStay(calls, store, s, t);
    if Trusted(calls, store) {
      BoundIgnoresFixups(s, kept);
      forall i: nat, r | Surviving(t, i) && i < |calls| && calls[i].Call? && Wanted(calls, producers, i, r)
        ensures Honoured(t, i, r) || Pending(b, i, r)
      {
        assert Surviving(s, i);
        if Pending(a, i, r) {
          PendingSame(a, b, i, r);
        } else {
          assert Honoured(s, i, r);
          assert Honoured(t, i, r);
        }
      }
    }
  }

  lemma RecordsIgnoreFixups(calls: seq<Call>, s: State, kept: seq<Fixup>)
    requires Records(calls, s)
    ensures Records(calls, s.(fixups := kept))
  {
    var t := s.(fixups := kept);
    forall i | i in t.created
      ensures RecordOk(calls, t, i)
    {
      assert RecordOk(calls, s, i);
    }
    forall j, b
      ensures RolledBackAs(t, j, b) <==> RolledBackAs(s, j, b)
    {
    }
  }

  lemma BoundIgnoresFixups(s: State, kept: seq<Fixup>)
    requires Bound(s) && Rows(s)
    ensures Bound(s.(fixups := kept)) && Rows(s.(fixups := kept))
  {
    var t := s.(fixups := kept);
    forall b | b in t.bulkIdMap
      ensures exists i :: SurvivingAs(t, i, b, t.bulkIdMap[b])
    {
      var i :| SurvivingAs(s, i, b, s.bulkIdMap[b]);
      assert SurvivingAs(t, i, b, t.bulkIdMap[b]);
    }
    assert forall i :: Surviving(t, i) <==> Surviving(s, i);
  }

  // ----- what a step leaves as it was

  /** One result for each visited operation that is an object, none for the others. */
  ghost predicate OneResultEach(calls: seq<Call>, results: seq<Option<Result>>, completed: set<nat>) {
    && |results| == |calls|
    && forall i | 0 <= i < |calls| :: results[i].Some? <==> i in completed && calls[i].Call?
  }

  ghost predicate SameShape(s: State, t: State) {
    && |t.results| == |s.results| && t.created.Keys == s.created.Keys && t.fixups == s.fixups
    && forall i | 0 <= i < |s.results| :: t.results[i].Some? <==> s.results[i].Some?
  }

  lemma {:induction false} FixupsKeepShape(s: State, store: Store, fixups: seq<Fixup>)
    requires KnownRecords(s, fixups)
    ensures SameShape(s, ApplyFixups(s, store, fixups))
  {
    if fixups != [] {
      FixupsKeepShape(s, store, fixups[..|fixups| - 1]);
    }
  }

  lemma PhaseKeepsShape(s: State, store: Store, fixups: seq<Fixup>, t: State)
    requires KnownRecords(s, fixups) && Compensated(ApplyFixups(s, store, fixups), t)
    ensures SameShape(s, t)
  {
    FixupsKeepShape(s, store, fixups);
    var u := ApplyFixups(s, store, fixups);
    var gone :| CompensatedBy(u, t, gone);
  }

  lemma ProcessShape(s: State, op: Call, producers: map<string, nat>, store: Store, i: nat)
    requires op.Call? && i < |s.results| && s.linked.Keys <= s.created.Keys
    ensures var t := Process(s, op, producers, store, i);
            && t.results == s.results[i := t.results[i]] && t.results[i].Some?
            && s.created.Keys <= t.created.Keys <= s.created.Keys + {i}
            && (t.fixups == s.fixups
                || (i in t.created && exists f: Fixup :: f.origIdx == i && t.fixups == s.fixups + [f]))
  {
    var t := Process(s, op, producers, store, i);
    if Creates(s.bulkIdMap, s.erased, op, store, i) {
      var deferred := DeferredRefs(op, producers, s.bulkIdMap, op.deferrable);
      var f := Fixup(i, op.isGroup, deferred);
      assert t.fixups == s.fixups || t.fixups == s.fixups + [f];
    }
  }

  lemma CreatedAreCompleted(calls: seq<Call>, s: State, completed: set<nat>)
    requires Records(calls, s) && OneResultEach(calls, s.results, completed)
    ensures s.created.Keys <= completed
  {
    forall i | i in s.created
      ensures i in completed
    {
      assert RecordOk(calls, s, i);
    }
  }

  // ----- fixups that are due

  predicate ReadyFor(closure: map<nat, set<nat>>, completed: set<nat>, f: Fixup) {
    f.origIdx in closure ==> closure[f.origIdx] <= completed
  }

  /** The fixups whose producers, direct and indirect, have all completed, or the others. */
  function Select(fixups: seq<Fixup>, closure: map<nat, set<nat>>, completed: set<nat>, ready: bool): (some: seq<Fixup>)
    ensures forall k | 0 <= k < |some| :: ReadyFor(closure, completed, some[k]) == ready
  {
    if fixups == [] then []
    else
      var f := fixups[|fixups| - 1];
      Select(fixups[..|fixups| - 1], closure, completed, ready) + if ReadyFor(closure, completed, f) == ready then [f] else []
  }

  lemma {:induction false} SelectSplits(fixups: seq<Fixup>, closure: map<nat, set<nat>>, completed: set<nat>)
    ensures multiset(Select(fixups, closure, completed, true) + Select(fixups, closure, completed, false)) == multiset(fixups)
  {
    if fixups != [] {
      SelectSplits(fixups[..|fixups| - 1], closure, completed);
      assert fixups == fixups[..|fixups| - 1] + [fixups[|fixups| - 1]];
    }
  }

  lemma {:induction false} NoneDue(fixups: seq<Fixup>, closure: map<nat, set<nat>>, completed: set<nat>)
    ensures Select(fixups, closure, completed, true) == [] ==> Select(fixups, closure, completed, false) == fixups
  {
    if fixups != [] {
      NoneDue(fixups[..|fixups| - 1], closure, completed);
      assert fixups == fixups[..|fixups| - 1] + [fixups[|fixups| - 1]];
    }
  }

  lemma FixupsKeepShaky(calls: seq<Call>, producers: map<string, nat>, store: Store, s: State, ready: seq<Fixup>, rest: seq<Fixup>)
    requires Shaky(calls, producers, store, s, ready + rest) && KnownRecords(s, ready)
    ensures Shaky(calls, producers, store, ApplyFixups(s, store, ready), rest)
    ensures ApplyFixups(s, store, ready).fixups == s.fixups
  {
    FixupsKeepPending(calls, producers, store, s, ready, rest, ready + rest);
  }

  lemma {:induction false} FixupsKeepPending(calls: seq<Call>, producers: map<string, nat>, store: Store, s: State,
                                             ready: seq<Fixup>, rest: seq<Fixup>, all: seq<Fixup>)
    requires all == ready + rest && Shaky(calls, producers, store, s, all) && KnownRecords(s, ready)
    ensures Shaky(calls, producers, store, ApplyFixups(s, store, ready), rest)
    ensures ApplyFixups(s, store, ready).fixups == s.fixups
  {
    if ready == [] {
      assert all == rest;
    } else {
      var front, f := ready[..|ready| - 1], ready[|ready| - 1];
      assert all == front + ([f] + rest) && ready == front + [f];
      FixupsKeepPending(calls, producers, store, s, front, [f] + rest, all);
      OneMoreFixup(s, store, front, f);
      ApplyKeepsShaky(calls, producers, store, ApplyFixups(s, store, front), f, rest);
    }
  }

  lemma OneMoreFixup(s: State, store: Store, front: seq<Fixup>, f: Fixup)
    requires KnownRecords(s, front) && KnownRecords(s, front + [f])
    ensures var t := ApplyFixups(s, store, front);
            && f.origIdx in t.created && f.origIdx < |t.results|
            && ApplyFixups(s, store, front + [f]) == ApplyFixup(t, store, f)
            && ApplyFixup(t, store, f).fixups == t.fixups
  {
    assert (front + [f])[..|front|] == front && (front + [f])[|front|] == f;
    FixupsKeepShape(s, store, front);
  }

  lemma SaneIsKnown(calls: seq<Call>, producers: map<string, nat>, store: Store, s: State, ready: seq<Fixup>, rest: seq<Fixup>)
    requires Sane(calls, producers, store, s, ready + rest)
    ensures KnownRecords(s, ready)
  {
    forall i | i in s.created
      ensures i < |s.results|
    {
      assert RecordOk(calls, s, i);
    }
    forall k | 0 <= k < |ready|
      ensures ready[k].origIdx in s.created
    {
      assert (ready + rest)[k] == ready[k];
    }
  }

  // ----- the compensation phase keeps

  lemma {:induction false} RollbackSetKeepsShaky(calls: seq<Call>, producers: map<string, nat>, store: Store, u: State, gone: set<nat>)
    requires Shaky(calls, producers, store, u, u.fixups) && gone <= u.created.Keys && gone !! RolledBack(u)
    ensures Shaky(calls, producers, store, RollbackSet(u, gone), u.fixups)
  {
    if gone == {} {
      RollbackSetEmpty(u);
    } else {
      var i :| i in gone;
      RollbackSetKeepsShaky(calls, producers, store, u, gone - {i});
      assert gone - {i} + {i} == gone;
      RollbackOneKeepsShaky(calls, producers, store, u, gone - {i}, i);
    }
  }

  lemma RollbackOneKeepsShaky(calls: seq<Call>, producers: map<string, nat>, store: Store, u: State, gone: set<nat>, i: nat)
    requires Records(calls, u) && gone <= u.created.Keys && Shaky(calls, producers, store, RollbackSet(u, gone), u.fixups)
    requires i in u.created && i !in gone && !u.created[i].rolledBack
    ensures Shaky(calls, producers, store, RollbackSet(u, gone + {i}), u.fixups)
  {
    assert RecordOk(calls, u, i);
    RollbackSetGrows(u, gone, i);
    var v := RollbackSet(u, gone);
    assert i in v.created;
    RollbackKeepsShaky(calls, producers, store, v, u.fixups, i, 400);
  }

  /** Once the least closed set is gone, no survivor depends on it and the state is consistent. */
  lemma CompensatedIsSane(calls: seq<Call>, producers: map<string, nat>, store: Store, u: State, t: State)
    requires Shaky(calls, producers, store, u, u.fixups) && Compensated(u, t)
    ensures Sane(calls, producers, store, t, t.fixups) && Settled(t) && t.fixups == u.fixups
  {
    var gone :| CompensatedBy(u, t, gone);
    RollbackSetKeepsShaky(calls, producers, store, u, gone);
    assert Settled(t) by {
      forall i, d | Surviving(t, i) && d in t.created[i].deps
        ensures d !in t.rolledBackIds
      {
        if d in t.rolledBackIds {
          var j :| RolledBackAs(t, j, d);
          assert DependsOn(u, i, j);
        }
      }
    }
    SettledIsSane(calls, producers, store, t, t.fixups);
  }

  // ----- runs

  datatype Bulk = Bulk(calls: seq<Call>, producers: map<string, nat>, closure: map<nat, set<nat>>, store: Store)

  /** From s to t the fixups in ready are applied, and what depends on a failure is rolled back; rest stays pending. */
  ghost predicate Phase(store: Store, s: State, ready: seq<Fixup>, rest: seq<Fixup>, t: State) {
    var m := s.(fixups := rest);
    KnownRecords(m, ready) && Compensated(ApplyFixups(m, store, ready), t)
  }

  /** From m to t all fixups that are due are applied, and what depends on a failure is rolled back. */
  ghost predicate Resolves(b: Bulk, completed: set<nat>, m: State, t: State) {
    var ready, rest := Select(m.fixups, b.closure, completed, true), Select(m.fixups, b.closure, completed, false);
    if ready == [] then t == m else Phase(b.store, m, ready, rest, t)
  }

  lemma NothingDue(b: Bulk, completed: set<nat>, m: State)
    requires Select(m.fixups, b.closure, completed, true) == []
    ensures Select(m.fixups, b.closure, completed, false) == m.fixups && Resolves(b, completed, m, m)
  {
    NoneDue(m.fixups, b.closure, completed);
  }

  /** One round of the loop: operation i, then the fixups that are due. */
  ghost predicate Round(b: Bulk, completed: set<nat>, i: nat, s: State, t: State) {
    && i < |b.calls|
    && if b.calls[i].NoCall? then t == s
       else
         && i < |s.results| && s.linked.Keys <= s.created.Keys
         && Resolves(b, completed + {i}, Process(s, b.calls[i], b.producers, b.store, i), t)
  }

  /** The states between the rounds. */
  ghost predicate IsTrace(b: Bulk, order: seq<nat>, states: seq<State>) {
    && |states| == |order| + 1 && states[0] == Initial(|b.calls|)
    && forall k | 0 <= k < |order| :: Round(b, Elements(order[..k]), order[k], states[k], states[k + 1])
  }

  /** What an early stop left pending is applied at the end. */
  ghost predicate Finishes(b: Bulk, s: State, end: State) {
    if s.fixups == [] then end == s else Phase(b.store, s, s.fixups, [], end)
  }

  ghost predicate MayGoOn(failOnErrors: int, s: State) {
    failOnErrors > 0 ==> CountErrors(s.results) < failOnErrors
  }

  /** The first k operations of the schedule have run, each with errors below the limit when it started. */
  ghost predicate WentThrough(b: Bulk, order: seq<nat>, failOnErrors: int, k: nat, states: seq<State>, now: State) {
    && k <= |order| && IsTrace(b, order[..k], states) && states[k] == now
    && forall j | 0 <= j < k :: MayGoOn(failOnErrors, states[j])
  }

  /** The run goes through the states, stops when it has to and not before, and ends in end. */
  ghost predicate RunsTo(b: Bulk, order: seq<nat>, failOnErrors: int, states: seq<State>, end: State) {
    && 1 <= |states| <= |order| + 1
    && var visited := |states| - 1;
    && WentThrough(b, order, failOnErrors, visited, states, states[visited])
    && (visited < |order| ==> !MayGoOn(failOnErrors, states[visited]))
    && Finishes(b, states[visited], end)
  }

  lemma RunStops(b: Bulk, order: seq<nat>, failOnErrors: int, states: seq<State>, visited: nat, s: State, end: State)
    requires WentThrough(b, order, failOnErrors, visited, states, s) && Finishes(b, s, end)
    requires visited < |order| ==> !MayGoOn(failOnErrors, s)
    ensures |states| == visited + 1 && RunsTo(b, order, failOnErrors, states, end)
  {
  }

  lemma TraceGrows(b: Bulk, order: seq<nat>, failOnErrors: int, k: nat, states: seq<State>, s: State, t: State)
    requires k < |order| && WentThrough(b, order, failOnErrors, k, states, s) && MayGoOn(failOnErrors, s)
    requires Round(b, Elements(order[..k]), order[k], s, t)
    ensures WentThrough(b, order, failOnErrors, k + 1, states + [t], t)
  {
    var order', states' := order[..k + 1], states + [t];
    forall j | 0 <= j < |order'|
      ensures Round(b, Elements(order'[..j]), order'[j], states'[j], states'[j + 1])
    {
      assert order'[..j] == order[..k][..j];
      assert j == k ==> order'[..k] == order[..k];
    }
  }

  lemma NextElement(order: seq<nat>, k: nat, n: nat)
    requires Permutation(order, n) && k < |order|
    ensures order[k] < n && order[k] !in Elements(order[..k])
    ensures Elements(order[..k + 1]) == Elements(order[..k]) + {order[k]}
  {
    assert order[..k + 1] == order[..k] + [order[k]];
    assert order[k] in order;
  }

  lemma RoundIsUnique(b: Bulk, completed: set<nat>, i: nat, s: State, t: State, t': State)
    requires Round(b, completed, i, s, t) && Round(b, completed, i, s, t')
    ensures t == t'
  {
    if b.calls[i].Call? {
      var m := Process(s, b.calls[i], b.producers, b.store, i);
      var ready, rest := Select(m.fixups, b.closure, completed + {i}, true), Select(m.fixups, b.closure, completed + {i}, false);
      if ready != [] {
        CompensationIsUnique(ApplyFixups(m.(fixups := rest), b.store, ready), t, t');
      }
    }
  }

  lemma {:induction false} TraceIsUnique(b: Bulk, order: seq<nat>, states: seq<State>, order': seq<nat>, states': seq<State>, k: nat)
    requires IsTrace(b, order, states) && IsTrace(b, order', states') && order <= order' && k <= |order|
    ensures states[k] == states'[k]
  {
    if k > 0 {
      TraceIsUnique(b, order, states, order', states', k - 1);
      assert order'[..k - 1] == order[..k - 1];
      RoundIsUnique(b, Elements(order[..k - 1]), order[k - 1], states[k - 1], states[k], states'[k]);
    }
  }

  /** A request has one run: the map's iteration order in the cascade does not show. */
  lemma RunIsUnique(b: Bulk, order: seq<nat>, failOnErrors: int, states: seq<State>, end: State, states': seq<State>, end': State)
    requires RunsTo(b, order, failOnErrors, states, end) && RunsTo(b, order, failOnErrors, states', end')
    ensures states == states' && end == end'
  {
    if |states| <= |states'| {
      ShorterRunIsSame(b, order, failOnErrors, states, end, states', end');
    } else {
      ShorterRunIsSame(b, order, failOnErrors, states', end', states, end);
    }
  }

  lemma ShorterRunIsSame(b: Bulk, order: seq<nat>, failOnErrors: int, states: seq<State>, end: State, states': seq<State>, end': State)
    requires RunsTo(b, order, failOnErrors, states, end) && RunsTo(b, order, failOnErrors, states', end')
    requires |states| <= |states'|
    ensures states == states' && end == end'
  {
    var visited := |states| - 1;
    forall k | 0 <= k < |states|
      ensures states[k] == states'[k]
    {
      TraceIsUnique(b, order[..visited], states, order[..|states'| - 1], states', k);
    }
    assert visited < |order| ==> !MayGoOn(failOnErrors, states'[visited]);
    if states[visited].fixups != [] {
      CompensationIsUnique(ApplyFixups(states[visited].(fixups := []), b.store, states[visited].fixups), end, end');
    }
  }

  // ----- what holds in a run

  ghost predicate SaneAfter(b: Bulk, completed: set<nat>, s: State) {
    Sane(b.calls, b.producers, b.store, s, s.fixups) && OneResultEach(b.calls, s.results, completed)
  }

  lemma PhaseIsSane(b: Bulk, s: State, ready: seq<Fixup>, rest: seq<Fixup>, t: State)
    requires Sane(b.calls, b.producers, b.store, s, s.fixups) && multiset(ready + rest) == multiset(s.fixups)
    requires Phase(b.store, s, ready, rest, t)
    ensures Sane(b.calls, b.producers, b.store, t, t.fixups) && Settled(t) && t.fixups == rest
    ensures SameShape(s.(fixups := rest), t)
  {
    var m := s.(fixups := rest);
    SaneWhateverOrder(b.calls, b.producers, b.store, s, s.fixups, ready + rest, rest);
    FixupsKeepShaky(b.calls, b.producers, b.store, m, ready, rest);
    CompensatedIsSane(b.calls, b.producers, b.store, ApplyFixups(m, b.store, ready), t);
    PhaseKeepsShape(m, b.store, ready, t);
  }

  lemma ProcessIsSane(b: Bulk, completed: set<nat>, i: nat, s: State)
    requires SaneAfter(b, completed, s) && i < |b.calls| && b.calls[i].Call? && i !in completed
    ensures i < |s.results| && s.linked.Keys <= s.created.Keys
    ensures SaneAfter(b, completed + {i}, Process(s, b.calls[i], b.producers, b.store, i))
  {
    CreatedAreCompleted(b.calls, s, completed);
    ProcessKeepsSane(b.calls, b.producers, b.store, s, i);
    ProcessShape(s, b.calls[i], b.producers, b.store, i);
  }

  lemma ResolvesIsSane(b: Bulk, completed: set<nat>, m: State, t: State)
    requires SaneAfter(b, completed, m) && Resolves(b, completed, m, t)
    ensures SaneAfter(b, completed, t)
  {
    var ready, rest := Select(m.fixups, b.closure, completed, true), Select(m.fixups, b.closure, completed, false);
    SelectSplits(m.fixups, b.closure, completed);
    if ready != [] {
      PhaseIsSane(b, m, ready, rest, t);
    }
  }

  lemma RoundIsSane(b: Bulk, completed: set<nat>, i: nat, s: State, t: State)
    requires SaneAfter(b, completed, s) && i !in completed && Round(b, completed, i, s, t)
    ensures SaneAfter(b, completed + {i}, t)
  {
    if b.calls[i].Call? {
      ProcessIsSane(b, completed, i, s);
      ResolvesIsSane(b, completed + {i}, Process(s, b.calls[i], b.producers, b.store, i), t);
    }
  }

  lemma TraceStep(b: Bulk, order: seq<nat>, states: seq<State>, k: nat)
    requires IsTrace(b, order, states) && Distinct(order) && k < |order|
    ensures Round(b, Elements(order[..k]), order[k], states[k], states[k + 1])
    ensures order[k] !in Elements(order[..k]) && Elements(order[..k + 1]) == Elements(order[..k]) + {order[k]}
  {
    assert order[..k + 1] == order[..k] + [order[k]];
  }

  lemma StartIsSane(b: Bulk)
    ensures SaneAfter(b, {}, Initial(|b.calls|))
  {
  }

  lemma {:induction false} TraceIsSane(b: Bulk, order: seq<nat>, states: seq<State>, k: nat)
    requires IsTrace(b, order, states) && Distinct(order) && k <= |order|
    ensures SaneAfter(b, Elements(order[..k]), states[k])
  {
    if k == 0 {
      StartIsSane(b);
      assert Elements(order[..0]) == {};
    } else {
      TraceIsSane(b, order, states, k - 1);
      TraceStep(b, order, states, k - 1);
      RoundIsSane(b, Elements(order[..k - 1]), order[k - 1], states[k - 1], states[k]);
    }
  }

  /** Every run of every request ends in a consistent state with nothing pending. */
  lemma RunEndsSane(b: Bulk, order: seq<nat>, failOnErrors: int, states: seq<State>, end: State)
    requires Distinct(order) && RunsTo(b, order, failOnErrors, states, end)
    ensures Sane(b.calls, b.producers, b.store, end, []) && end.fixups == []
  {
    var visited := |states| - 1;
    TraceIsSane(b, order[..visited], states, visited);
    FinishIsSane(b, Elements(order[..visited][..visited]), states[visited], end);
  }

  lemma FinishIsSane(b: Bulk, completed: set<nat>, s: State, end: State)
    requires SaneAfter(b, completed, s) && Finishes(b, s, end)
    ensures Sane(b.calls, b.producers, b.store, end, []) && end.fixups == []
  {
    if s.fixups != [] {
      assert s.fixups + [] == s.fixups;
      PhaseIsSane(b, s, s.fixups, [], end);
    }
  }
}
