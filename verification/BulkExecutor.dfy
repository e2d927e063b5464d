/**
 The executor itself: the run's variables, the methods that change them, and the guarantees
 of a whole run.
 */
module BulkExecutor {
  import opened Text
  import opened BulkRequest
  import opened BulkClosure
  import opened BulkSchedule
  import opened BulkOrder
  import opened BulkState
  import opened BulkCascade
  import opened BulkRun
  import opened BulkTrace

  // ----- bookkeeping of a run

  /** Every fixup that was issued is either handled or waiting, never both, and no operation issued two. */
  ghost predicate Ledger(issued: seq<Fixup>, handled: seq<Fixup>, waiting: seq<Fixup>, created: set<nat>) {
    && multiset(issued) == multiset(handled) + multiset(waiting)
    && (forall a, b | 0 <= a < b < |issued| :: issued[a].origIdx != issued[b].origIdx)
    && (forall a | 0 <= a < |issued| :: issued[a].origIdx in created)
  }

  class Executor {
    const calls: seq<Call>
    const producers: map<string, nat>
    const closure: map<nat, set<nat>>
    const store: Store

    var bulkIdMap: map<string, ResourceId>
    var results: seq<Option<Result>>
    var fixups: seq<Fixup>
    var created: map<nat, CreatedPost>
    var rolledBackIds: set<string>
    var linked: map<nat, set<ResourceId>>
    var erased: set<ResourceId>
    var completed: set<nat>
    var errorCount: nat

    // the run's history
    ghost var issued: seq<Fixup>
    ghost var handled: seq<Fixup>
    ghost var rewritten: map<nat, set<ResourceId>>
    ghost var states: seq<State>

    ghost function Now(): State
      reads this
    {
      State(bulkIdMap, results, fixups, created, rolledBackIds, linked, erased, rewritten)
    }

    // ----- rolling back

    /** Undoes one created resource; says whether its result became an error by that. */
    method RollbackRecord(i: nat, status: ErrorStatus) returns (newErrors: nat)
      requires i in created && i < |results| && linked.Keys <= created.Keys
      modifies `bulkIdMap, `results, `created, `rolledBackIds, `linked, `erased
      ensures Now() == Rollback(old(Now()), i, status)
      ensures CountErrors(results) == CountErrors(old(results)) + newErrors
    {
      newErrors := 0;
      var rec := created[i];
      if rec.rolledBack {
        return;
      }
      linked, erased := Erase(linked, created, rec.id), erased + {rec.id};
      created := created[i := rec.(rolledBack := true)];
      bulkIdMap := bulkIdMap - {rec.bulkId};
      rolledBackIds := rolledBackIds + {rec.bulkId};
      if results[i].Some? {
        CountErrorsUpdate(results, i, Some(Result(status, None, None)));
        var wasError := IsError(results[i]);
        results := results[i := Some(Result(status, None, None))];
        if !wasError && IsError(results[i]) {
          newErrors := 1;
        }
      }
    }

    /** Rolls back, in any order and until nothing changes, whatever depends on something gone. */
    method Cascade() returns (newErrors: nat)
      requires Shaky(calls, producers, store, Now(), fixups)
      modifies `bulkIdMap, `results, `created, `rolledBackIds, `linked, `erased
      ensures Compensated(old(Now()), Now())
      ensures Sane(calls, producers, store, Now(), fixups) && Settled(Now())
      ensures CountErrors(results) == CountErrors(old(results)) + newErrors
    {
      ghost var start, gone := Now(), {};
      RollbackSetEmpty(start);
      newErrors, gone := CascadeRounds(start);
      CascadeEnds(calls, producers, store, start, Now(), gone);
    }

    method CascadeRounds(ghost start: State) returns (newErrors: nat, ghost gone: set<nat>)
      requires start == Now() && Cascading(calls, start, Now(), {}) && Shaky(calls, producers, store, Now(), fixups)
      modifies `bulkIdMap, `results, `created, `rolledBackIds, `linked, `erased
      ensures Cascading(calls, start, Now(), gone) && Shaky(calls, producers, store, Now(), fixups)
      ensures SettledBut(Now(), {})
      ensures CountErrors(results) == CountErrors(old(results)) + newErrors
    {
      newErrors, gone := 0, {};
      var changed := rolledBackIds != {};
      while changed
        invariant Cascading(calls, start, Now(), gone) && Shaky(calls, producers, store, Now(), fixups)
        invariant !changed ==> SettledBut(Now(), {})
        invariant CountErrors(results) == CountErrors(old(results)) + newErrors
        decreases start.created.Keys - gone, changed
      {
        var n;
        changed, n, gone := CascadeRound(start, gone);
        newErrors := newErrors + n;
      }
    }

    /** One pass over all records, in any order. */
    method CascadeRound(ghost start: State, ghost gone: set<nat>)
      returns (changed: bool, newErrors: nat, ghost gone': set<nat>)
      requires Cascading(calls, start, Now(), gone) && Shaky(calls, producers, store, Now(), fixups)
      modifies `bulkIdMap, `results, `created, `rolledBackIds, `linked, `erased
      ensures Cascading(calls, start, Now(), gone') && Shaky(calls, producers, store, Now(), fixups)
      ensures gone <= gone' && (changed ==> gone < gone')
      ensures !changed ==> gone' == gone && SettledBut(Now(), {})
      ensures CountErrors(results) == CountErrors(old(results)) + newErrors
    {
      changed, newErrors, gone' := false, 0, gone;
      var todo := created.Keys;
      while todo != {}
        invariant Cascading(calls, start, Now(), gone') && Shaky(calls, producers, store, Now(), fixups)
        invariant todo <= created.Keys && gone <= gone' && (changed ==> gone < gone')
        invariant !changed ==> gone' == gone && SettledBut(Now(), todo)
        invariant CountErrors(results) == CountErrors(old(results)) + newErrors
        decreases todo
      {
        var i :| i in todo;
        var affected, n := CascadeVisit(i, start, gone', todo);
        todo := todo - {i};
        if affected {
          gone' := gone' + {i};
          changed := true;
        }
        newErrors := newErrors + n;
      }
    }

    method CascadeVisit(i: nat, ghost start: State, ghost gone: set<nat>, ghost todo: set<nat>)
      returns (affected: bool, newErrors: nat)
      requires Cascading(calls, start, Now(), gone) && Shaky(calls, producers, store, Now(), fixups)
      requires i in created
      modifies `bulkIdMap, `results, `created, `rolledBackIds, `linked, `erased
      ensures Shaky(calls, producers, store, Now(), fixups)
      ensures Cascading(calls, start, Now(), if affected then gone + {i} else gone)
      ensures affected ==> i !in gone
      ensures !affected && old(SettledBut(Now(), todo)) ==> SettledBut(Now(), todo - {i})
      ensures created.Keys == old(created.Keys)
      ensures CountErrors(results) == CountErrors(old(results)) + newErrors
    {
      newErrors := 0;
      affected := !created[i].rolledBack && AnyGone(created[i].deps, rolledBackIds);
      if affected {
        newErrors := RollbackAffected(i, start, gone);
      } else if SettledBut(Now(), todo) {
        LookedAt(Now(), todo, i);
      }
    }

    method RollbackAffected(i: nat, ghost start: State, ghost gone: set<nat>) returns (newErrors: nat)
      requires Cascading(calls, start, Now(), gone) && Shaky(calls, producers, store, Now(), fixups)
      requires i in created && !created[i].rolledBack && AnyGone(created[i].deps, rolledBackIds)
      modifies `bulkIdMap, `results, `created, `rolledBackIds, `linked, `erased
      ensures i !in gone && Cascading(calls, start, Now(), gone + {i})
      ensures Shaky(calls, producers, store, Now(), fixups)
      ensures created.Keys == old(created.Keys)
      ensures CountErrors(results) == CountErrors(old(results)) + newErrors
    {
      RollbackKeepsShaky(calls, producers, store, Now(), fixups, i, 400);
      assert linked.Keys <= created.Keys;
      CascadeStep(calls, start, Now(), gone, i);
      newErrors := RollbackRecord(i, 400);
    }

    // ----- deferred references

    /** Stores the references of one fixup, or rolls its resource back at the first that fails. */
    method ApplyOne(f: Fixup) returns (newErrors: nat)
      requires f.origIdx in created && f.origIdx < |results| && linked.Keys <= created.Keys
      modifies `bulkIdMap, `results, `created, `rolledBackIds, `linked, `erased, `rewritten
      ensures Now() == ApplyFixup(old(Now()), store, f)
      ensures CountErrors(results) == CountErrors(old(results)) + newErrors
    {
      newErrors := 0;
      var i := f.origIdx;
      if created[i].rolledBack {
        return;
      }
      var error := StoreReferences(f);
      if error.Some? {
        newErrors := RollbackRecord(i, error.value);
        return;
      }
      linked := Extend(linked, i, Resolved(bulkIdMap, f.refs));
      rewritten := Extend(rewritten, i, Resolved(bulkIdMap, f.refs));
      if !f.isGroup && results[i].Some? {
        var res := Some(results[i].value.(version := Some(store.version(i))));
        CountErrorsUpdate(results, i, res);
        results := results[i := res];
      }
    }

    /** Offers the references to the store one by one; a member seen before is skipped. */
    method StoreReferences(f: Fixup) returns (error: Option<ErrorStatus>)
      ensures error == FixError(Now(), store, f, 0, {})
    {
      var seen: set<ResourceId> := {};
      for k := 0 to |f.refs|
        invariant FixError(Now(), store, f, 0, {}) == FixError(Now(), store, f, k, seen)
      {
        if f.refs[k] !in bulkIdMap {
          return Some(400);
        }
        var id := bulkIdMap[f.refs[k]];
        if f.isGroup && id in seen {
          continue;
        }
        if store.admit(f.origIdx, k).Some? {
          return store.admit(f.origIdx, k);
        }
        if f.isGroup && id in erased {
          return Some(404);
        }
        seen := seen + {id};
      }
      return if f.isGroup || f.origIdx in linked then None else Some(500);
    }

    /** Applies fixups in their order. */
    method ApplyInOrder(ready: seq<Fixup>) returns (newErrors: nat)
      requires KnownRecords(Now(), ready)
      modifies `bulkIdMap, `results, `created, `rolledBackIds, `linked, `erased, `rewritten
      ensures Now() == ApplyFixups(old(Now()), store, ready)
      ensures CountErrors(results) == CountErrors(old(results)) + newErrors
    {
      newErrors := 0;
      for k := 0 to |ready|
        invariant Now() == ApplyFixups(old(Now()), store, ready[..k])
        invariant CountErrors(results) == CountErrors(old(results)) + newErrors
      {
        assert ready[..k + 1][..k] == ready[..k];
        var n := ApplyOne(ready[k]);
        newErrors := newErrors + n;
      }
      assert ready[..|ready|] == ready;
    }

    /** Applies fixups in their order, then rolls back all that depends on a failed one. */
    method ApplyDeferredBulkFixups(ready: seq<Fixup>) returns (newErrors: nat)
      requires Sane(calls, producers, store, Now(), ready + fixups)
      modifies `bulkIdMap, `results, `created, `rolledBackIds, `linked, `erased, `rewritten, `handled
      ensures KnownRecords(old(Now()), ready)
      ensures Compensated(ApplyFixups(old(Now()), store, ready), Now())
      ensures Sane(calls, producers, store, Now(), fixups) && Settled(Now())
      ensures handled == old(handled) + ready
      ensures CountErrors(results) == CountErrors(old(results)) + newErrors
    {
      SaneIsKnown(calls, producers, store, Now(), ready, fixups);
      FixupsKeepShaky(calls, producers, store, Now(), ready, fixups);
      newErrors := ApplyInOrder(ready);
      handled := handled + ready;
      var n := Cascade();
      newErrors := newErrors + n;
    }

    // ----- operations

    predicate IsReady(f: Fixup)
      reads this
    {
      ReadyFor(closure, completed, f)
    }

    /** Takes out the fixups whose producers, direct and indirect, have all completed. */
    method TakeReady() returns (ready: seq<Fixup>)
      modifies `fixups
      ensures ready == Select(old(fixups), closure, completed, true)
      ensures fixups == Select(old(fixups), closure, completed, false)
    {
      ready := [];
      var remaining: seq<Fixup> := [];
      for k := 0 to |fixups|
        invariant ready == Select(fixups[..k], closure, completed, true)
        invariant remaining == Select(fixups[..k], closure, completed, false)
      {
        assert fixups[..k + 1][..k] == fixups[..k];
        if IsReady(fixups[k]) {
          ready := ready + [fixups[k]];
        } else {
          remaining := remaining + [fixups[k]];
        }
      }
      assert fixups[..|fixups|] == fixups;
      fixups := remaining;
    }

    /** Runs one operation: a POST that creates its resource, an update that finds its own, or a failure. */
    method ProcessOperation(i: nat)
      requires i < |calls| == |results| && calls[i].Call? && linked.Keys <= created.Keys
      modifies `bulkIdMap, `results, `fixups, `created, `linked, `erased, `rewritten, `issued
      ensures Now() == Process(old(Now()), calls[i], producers, store, i)
      ensures issued == old(issued) + fixups[|old(fixups)|..]
    {
      var op := calls[i];
      if Creates(bulkIdMap, erased, op, store, i) {
        CreateResource(i);
      } else if Updates(bulkIdMap, erased, op, store, i) {
        UpdateResource(i, TargetId(op, bulkIdMap).value);
      } else {
        results := results[i := Some(Refusal(bulkIdMap, erased, op, store, i))];
      }
    }

    /** A POST adds to bulkIdMap, to the records and, for references it cannot resolve yet, to the fixups. */
    method CreateResource(i: nat)
      requires i < |calls| == |results| && calls[i].Call? && store.create(i).Created?
      modifies `bulkIdMap, `results, `fixups, `created, `linked, `erased, `issued
      ensures Now() == Create(old(Now()), calls[i], producers, i, store.create(i).id, store.create(i).version)
      ensures issued == old(issued) + fixups[|old(fixups)|..]
    {
      var op, outcome := calls[i], store.create(i);
      var deferred := DeferredRefs(op, producers, bulkIdMap, op.deferrable);
      results := results[i := Some(Result(201, Some(OfCreated(outcome.id)), Some(outcome.version)))];
      linked, erased := linked[i := Resolved(bulkIdMap, op.deferrable)], erased - {outcome.id};
      bulkIdMap := bulkIdMap[op.bulkId := outcome.id];
      created := created[i := CreatedPost(op.isGroup, outcome.id, op.bulkId, op.DataRefs(), false)];
      if deferred != [] {
        fixups := fixups + [Fixup(i, op.isGroup, deferred)];
        issued := issued + [Fixup(i, op.isGroup, deferred)];
      }
    }

    /** A DELETE erases the resource and the member rows naming it; a PUT or PATCH leaves it with other links. */
    method UpdateResource(i: nat, id: ResourceId)
      requires i < |calls| == |results| && calls[i].Call? && store.update(i).Updated? && linked.Keys <= created.Keys
      modifies `results, `linked, `erased, `rewritten
      ensures Now() == Update(old(Now()), calls[i].verb, i, id, store.leaves(i), UpdateResult(calls[i], store.update(i).version))
    {
      ghost var s := Now();
      results := results[i := Some(UpdateResult(calls[i], store.update(i).version))];
      if calls[i].verb == Delete {
        linked, erased := Erase(linked, created, id), erased + {id};
      } else {
        var left := map j | j in linked && created[j].id == id ::
          if created[j].isGroup then store.leaves(i) - erased else store.leaves(i);
        linked, rewritten := linked + left, rewritten + left;
        assert left == Rewrite(s, id, store.leaves(i));
      }
    }

    // ----- the run

    ghost function Setup(): Bulk {
      Bulk(calls, producers, closure, store)
    }

    ghost predicate Valid()
      reads this
    {
      Consistent(calls, producers, store, Now(), completed, errorCount, issued, handled)
    }

    /** Runs one operation, then applies every fixup whose producers have all completed. */
    method ExecuteOne(i: nat)
      requires Valid() && i < |calls| && calls[i].Call? && i !in completed
      modifies `bulkIdMap, `results, `fixups, `created, `rolledBackIds, `linked, `erased, `rewritten, `completed, `errorCount, `issued, `handled
      ensures Valid() && completed == old(completed) + {i}
      ensures Round(Setup(), old(completed), i, old(Now()), Now())
    {
      ProcessAndCount(i);
      if fixups != [] {
        ResolveReady();
      }
    }

    method ProcessAndCount(i: nat)
      requires Valid() && i < |calls| && calls[i].Call? && i !in completed
      modifies `bulkIdMap, `results, `fixups, `created, `linked, `erased, `rewritten, `completed, `errorCount, `issued
      ensures Valid() && completed == old(completed) + {i}
      ensures i < |old(results)| && old(linked.Keys) <= old(created.Keys)
      ensures Now() == Process(old(Now()), calls[i], producers, store, i)
    {
      ProcessOne(i);
      completed := completed + {i};
      CountIfError(i);
    }

    /** All but the operation's own bookkeeping. */
    method ProcessOne(i: nat)
      requires Valid() && i < |calls| && calls[i].Call? && i !in completed
      modifies `bulkIdMap, `results, `fixups, `created, `linked, `erased, `rewritten, `issued
      ensures i < |results| == |old(results)| && old(linked.Keys) <= old(created.Keys)
      ensures Now() == Process(old(Now()), calls[i], producers, store, i)
      ensures Consistent(calls, producers, store, Now(), completed + {i}, errorCount + (if IsError(results[i]) then 1 else 0), issued, handled)
    {
      ghost var s := Now();
      ConsistentAfterProcess(calls, producers, store, s, completed, errorCount, issued, handled, i);
      ProcessOperation(i);
    }

    method CountIfError(i: nat)
      requires i < |results|
      modifies `errorCount
      ensures errorCount == old(errorCount) + if IsError(results[i]) then 1 else 0
    {
      if IsError(results[i]) {
        errorCount := errorCount + 1;
      }
    }

    method ResolveReady()
      requires Valid()
      modifies `bulkIdMap, `results, `fixups, `created, `rolledBackIds, `linked, `erased, `rewritten, `errorCount, `handled
      ensures Valid()
      ensures Resolves(Setup(), completed, old(Now()), Now())
    {
      ghost var before := Now();
      var ready := TakeReady();
      if ready != [] {
        ApplyReady(before, ready);
      } else {
        NothingDue(Setup(), completed, before);
        assert Now() == before;
      }
    }

    method ApplyReady(ghost before: State, ready: seq<Fixup>)
      requires Consistent(calls, producers, store, before, completed, errorCount, issued, handled)
      requires Now() == before.(fixups := fixups) && ready != []
      requires ready == Select(before.fixups, closure, completed, true)
      requires fixups == Select(before.fixups, closure, completed, false)
      modifies `bulkIdMap, `results, `created, `rolledBackIds, `linked, `erased, `rewritten, `errorCount, `handled
      ensures Valid() && Resolves(Setup(), completed, before, Now())
    {
      SelectSplits(before.fixups, closure, completed);
      ApplyAndCount(before, ready);
    }

    method ApplyAndCount(ghost before: State, ready: seq<Fixup>)
      requires Consistent(calls, producers, store, before, completed, errorCount, issued, handled)
      requires Now() == before.(fixups := fixups) && multiset(ready + fixups) == multiset(before.fixups)
      modifies `bulkIdMap, `results, `created, `rolledBackIds, `linked, `erased, `rewritten, `errorCount, `handled
      ensures Valid() && fixups == old(fixups) && Phase(store, before, ready, fixups, Now())
    {
      SaneWhateverOrder(calls, producers, store, before, before.fixups, ready + fixups, fixups);
      ghost var h := handled;
      var n := ApplyDeferredBulkFixups(ready);
      ConsistentAfterPhase(calls, producers, store, before, completed, errorCount, issued, h, ready, fixups, Now(), n);
      errorCount := errorCount + n;
    }

    constructor (calls: seq<Call>, producers: map<string, nat>, closure: map<nat, set<nat>>, store: Store)
      ensures this.calls == calls && this.producers == producers && this.closure == closure && this.store == store
      ensures Valid() && completed == {} && Now() == Initial(|calls|) && states == [Now()]
    {
      this.calls, this.producers, this.closure, this.store := calls, producers, closure, store;
      bulkIdMap, results, fixups, created := map[], seq(|calls|, _ => None), [], map[];
      rolledBackIds, linked, erased, completed, errorCount := {}, map[], {}, {}, 0;
      issued, handled, rewritten := [], [], map[];
      states := [Initial(|calls|)];
      new;
      assert results == Initial(|calls|).results;
      NoErrorsYet(|calls|);
    }

    /** Runs the schedule until it ends or enough operations have failed. */
    method Run(order: seq<nat>, failOnErrors: int) returns (visited: nat)
      requires Valid() && completed == {} && Now() == Initial(|calls|) && states == [Now()]
      requires Permutation(order, |calls|)
      modifies this
      ensures visited <= |order| && completed == Elements(order[..visited])
      ensures |states| == visited + 1 && RunsTo(Setup(), order, failOnErrors, states, Now())
      ensures Sane(calls, producers, store, Now(), []) && fixups == []
      ensures OneResultEach(calls, results, completed)
      ensures Ledger(issued, handled, [], created.Keys)
      ensures states[visited].fixups == [] ==> errorCount == CountErrors(results)
      ensures visited < |order| ==> failOnErrors > 0 && CountErrors(results) >= failOnErrors
    {
      visited := RunLoop(order, failOnErrors);
      ghost var s := Now();
      Finish();
      RunStops(Setup(), order, failOnErrors, states, visited, s, Now());
    }

    method RunLoop(order: seq<nat>, failOnErrors: int) returns (visited: nat)
      requires Valid() && completed == {} && Now() == Initial(|calls|) && states == [Now()]
      requires Permutation(order, |calls|)
      modifies this
      ensures Reached(order, failOnErrors, visited)
      ensures visited < |order| ==> failOnErrors > 0 && errorCount >= failOnErrors
    {
      visited := 0;
      while visited < |order|
        invariant Reached(order, failOnErrors, visited)
      {
        if failOnErrors > 0 && errorCount >= failOnErrors {
          break;
        }
        Visit(order, failOnErrors, visited);
        visited := visited + 1;
        if failOnErrors > 0 && errorCount >= failOnErrors {
          break;
        }
      }
    }

    /** What the loop keeps after k operations of the schedule. */
    ghost predicate Reached(order: seq<nat>, failOnErrors: int, k: nat)
      reads this
    {
      && k <= |order| && completed == Elements(order[..k])
      && Valid() && WentThrough(Setup(), order, failOnErrors, k, states, Now())
    }

    method Visit(order: seq<nat>, failOnErrors: int, k: nat)
      requires k < |order| && Reached(order, failOnErrors, k)
      requires Permutation(order, |calls|)
      requires failOnErrors > 0 ==> errorCount < failOnErrors
      modifies this
      ensures Reached(order, failOnErrors, k + 1)
    {
      ghost var s := Now();
      NextElement(order, k, |calls|);
      VisitOne(order[k]);
      TraceGrows(Setup(), order, failOnErrors, k, states, s, Now());
      states := states + [Now()];
    }

    /** An element that is not an object is passed over. */
    method VisitOne(i: nat)
      requires Valid() && i < |calls| && i !in completed
      modifies `bulkIdMap, `results, `fixups, `created, `rolledBackIds, `linked, `erased, `rewritten, `completed, `errorCount, `issued, `handled
      ensures Valid() && completed == old(completed) + {i}
      ensures Round(Setup(), old(completed), i, old(Now()), Now())
    {
      if calls[i].NoCall? {
        completed := completed + {i};
      } else {
        ExecuteOne(i);
      }
    }

    /** Applies what an early stop left pending; its errors are no longer counted. */
    method Finish()
      requires Valid()
      modifies `bulkIdMap, `results, `fixups, `created, `rolledBackIds, `linked, `erased, `rewritten, `handled
      ensures Finishes(Setup(), old(Now()), Now())
      ensures Sane(calls, producers, store, Now(), []) && fixups == []
      ensures OneResultEach(calls, results, completed) && Ledger(issued, handled, [], created.Keys)
      ensures CountErrors(results) >= old(CountErrors(results))
      ensures old(fixups) == [] ==> results == old(results)
    {
      if fixups != [] {
        ApplyRemaining();
      }
    }

    method ApplyRemaining()
      requires Valid()
      modifies `bulkIdMap, `results, `fixups, `created, `rolledBackIds, `linked, `erased, `rewritten, `handled
      ensures Phase(store, old(Now()), old(fixups), [], Now())
      ensures Sane(calls, producers, store, Now(), []) && fixups == []
      ensures OneResultEach(calls, results, completed) && Ledger(issued, handled, [], created.Keys)
      ensures CountErrors(results) >= old(CountErrors(results))
    {
      ghost var before, h := Now(), handled;
      var ready := fixups;
      fixups := [];
      assert ready + fixups == before.fixups;
      SaneWhateverOrder(calls, producers, store, before, before.fixups, ready + fixups, fixups);
      var n := ApplyDeferredBulkFixups(ready);
      ConsistentAfterPhase(calls, producers, store, before, completed, errorCount, issued, h, ready, fixups, Now(), n);
    }
  }

  lemma {:induction false} NoErrorsYet(n: nat)
    ensures CountErrors(seq(n, _ => None)) == 0
  {
    if n > 0 {
      NoErrorsYet(n - 1);
      assert seq(n, _ => None)[..n - 1] == seq<Option<Result>>(n - 1, _ => None);
    }
  }

  /** What holds between operations. */
  ghost predicate Consistent(calls: seq<Call>, producers: map<string, nat>, store: Store, s: State,
                             completed: set<nat>, errorCount: nat, issued: seq<Fixup>, handled: seq<Fixup>) {
    && Sane(calls, producers, store, s, s.fixups)
    && OneResultEach(calls, s.results, completed)
    && errorCount == CountErrors(s.results)
    && Ledger(issued, handled, s.fixups, s.created.Keys)
  }

  lemma ConsistentAfterProcess(calls: seq<Call>, producers: map<string, nat>, store: Store, s: State,
                               completed: set<nat>, errorCount: nat, issued: seq<Fixup>, handled: seq<Fixup>, i: nat)
    requires Consistent(calls, producers, store, s, completed, errorCount, issued, handled)
    requires i < |calls| && calls[i].Call? && i !in completed
    ensures |s.results| == |calls|
    ensures var t := Process(s, calls[i], producers, store, i);
            && |t.fixups| >= |s.fixups|
            && Consistent(calls, producers, store, t, completed + {i}, errorCount + (if IsError(t.results[i]) then 1 else 0),
                          issued + t.fixups[|s.fixups|..], handled)
  {
    CreatedAreCompleted(calls, s, completed);
    ProcessKeepsSane(calls, producers, store, s, i);
    ProcessShape(s, calls[i], producers, store, i);
    var t := Process(s, calls[i], producers, store, i);
    CountErrorsUpdate(s.results, i, t.results[i]);
    LedgerGrows(issued, handled, s.fixups, t.fixups, s.created.Keys, t.created.Keys, i);
  }

  lemma ConsistentAfterPhase(calls: seq<Call>, producers: map<string, nat>, store: Store, s: State,
                             completed: set<nat>, errorCount: nat, issued: seq<Fixup>, handled: seq<Fixup>,
                             ready: seq<Fixup>, rest: seq<Fixup>, t: State, n: nat)
    requires Consistent(calls, producers, store, s, completed, errorCount, issued, handled)
    requires multiset(ready + rest) == multiset(s.fixups)
    requires var m := s.(fixups := rest);
             KnownRecords(m, ready) && Compensated(ApplyFixups(m, store, ready), t)
    requires Sane(calls, producers, store, t, rest) && CountErrors(t.results) == CountErrors(s.results) + n
    ensures Consistent(calls, producers, store, t, completed, errorCount + n, issued, handled + ready)
  {
    PhaseKeepsShape(s.(fixups := rest), store, ready, t);
    assert multiset(ready + rest) == multiset(ready) + multiset(rest);
    assert multiset(handled + ready) == multiset(handled) + multiset(ready);
  }

  lemma LedgerGrows(issued: seq<Fixup>, handled: seq<Fixup>, before: seq<Fixup>, after: seq<Fixup>,
                    created: set<nat>, created': set<nat>, i: nat)
    requires Ledger(issued, handled, before, created) && i !in created && created <= created'
    requires after == before || (i in created' && exists f: Fixup :: f.origIdx == i && after == before + [f])
    ensures |after| >= |before|
    ensures Ledger(issued + after[|before|..], handled, after, created')
  {
    if after == before {
      assert issued + after[|before|..] == issued;
    } else {
      var f: Fixup :| f.origIdx == i && after == before + [f];
      assert after[|before|..] == [f];
    }
  }
}
