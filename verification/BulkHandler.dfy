/**
 A whole bulk request: producers, closure, order, run and response, with the guarantees of
 the scheduler and of the executor put together.
 */
module BulkHandler {
  import opened Text
  import opened BulkRequest
  import opened BulkClosure
  import opened BulkSchedule
  import opened BulkOrder
  import opened BulkState
  import opened BulkCascade
  import opened BulkRun
  import opened BulkTrace
  import opened BulkPending
  import opened BulkReferences
  import opened BulkExecutor

  // ----- the response

  function Present(results: seq<Option<Result>>): seq<Result> {
    if results == [] then []
    else
      var last := results[|results| - 1];
      Present(results[..|results| - 1]) + if last.Some? then [last.value] else []
  }

  /** Results are reported in the order of the request, one for each operation that has one. */
  lemma {:induction false} PresentInRequestOrder(results: seq<Option<Result>>, i: nat)
    requires i < |results| && results[i].Some?
    ensures |Present(results[..i])| < |Present(results)|
    ensures Present(results)[|Present(results[..i])|] == results[i].value
  {
    var front := results[..|results| - 1];
    if i == |results| - 1 {
      assert results[..i] == front;
    } else {
      PresentInRequestOrder(front, i);
      assert front[..i] == results[..i];
    }
  }

  method Collect(results: seq<Option<Result>>) returns (response: seq<Result>)
    ensures response == Present(results)
  {
    response := [];
    for i := 0 to |results|
      invariant response == Present(results[..i])
    {
      assert results[..i + 1][..i] == results[..i];
      if results[i].Some? {
        response := response + [results[i].value];
      }
    }
    assert results[..|results|] == results;
  }

  // ----- the request

  ghost function BulkOf(ops: seq<Operation>, store: Store): Bulk {
    Bulk(Calls(ops), Producers(Views(ops)), ClosureTable(Views(ops)), store)
  }

  lemma ScheduleDrives(ops: seq<Operation>, store: Store, order: seq<nat>)
    requires IsExecutionOrder(Views(ops), order)
    ensures Permutation(order, |ops|) && Drives(Views(ops), BulkOf(ops, store), order)
  {
    var tasks, closure := Views(ops), ClosureTable(Views(ops));
    EveryOperationOnce(tasks, order);
    ClosureTableIsClosure(tasks);
    forall k, r | 0 <= k < |order| && NeedsFirst(tasks, Producers(tasks), order[k], r)
      ensures closure[Producers(tasks)[r]] <= Elements(order[..k])
    {
      DependenciesRunFirst(tasks, order, k, r);
    }
  }

  /** A run of the whole request, in its schedule's order. */
  ghost predicate Ends(ops: seq<Operation>, store: Store, failOnErrors: int, order: seq<nat>, states: seq<State>, end: State) {
    IsExecutionOrder(Views(ops), order) && RunsTo(BulkOf(ops, store), order, failOnErrors, states, end)
  }

  lemma RunKeepsPromises(ops: seq<Operation>, store: Store, failOnErrors: int, order: seq<nat>, states: seq<State>, end: State)
    requires Ends(ops, store, failOnErrors, order, states, end)
    ensures forall k | 0 <= k < |states| - 1 ::
              MayGoOn(failOnErrors, states[k]) && NonePendingFor(Views(ops), BulkOf(ops, store), order[k], states[k].fixups)
    ensures |states| == |order| + 1 ==> states[|order|].fixups == []
    ensures Trusted(Calls(ops), store) && NoLateReference(Calls(ops), Producers(Views(ops))) ==> Settled(end)
  {
    var b := BulkOf(ops, store);
    ScheduleDrives(ops, store, order);
    forall k | 0 <= k < |states| - 1
      ensures NonePendingFor(Views(ops), b, order[k], states[k].fixups)
    {
      StartsWithNothingPending(Views(ops), b, order, failOnErrors, states, end, k);
    }
    if |states| == |order| + 1 {
      assert order[..|order|] == order;
      NothingPendingAtTheEnd(Views(ops), b, order, states);
    }
    RunEndsSane(b, order, failOnErrors, states, end);
    SettledAtTheEnd(b.calls, b.producers, store, end);
  }

  method ProcessBulk(ops: seq<Operation>, store: Store, failOnErrors: int)
    returns (response: seq<Result>, run: Executor, order: seq<nat>, visited: nat)
    ensures fresh(run) && run.calls == Calls(ops) && run.producers == Producers(Views(ops)) && run.store == store
    ensures run.closure == ClosureTable(Views(ops))
    // what ran: a prefix of the schedule, stopped only by enough errors
    ensures IsExecutionOrder(Views(ops), order) && visited <= |order|
    ensures visited < |order| ==> failOnErrors > 0 && CountErrors(run.results) >= failOnErrors
    ensures visited == |order| ==> run.errorCount == CountErrors(run.results)
    ensures OneResultEach(run.calls, run.results, Elements(order[..visited]))
    ensures response == Present(run.results)
    // the states it went through and ended in are those of the request's one run
    ensures |run.states| == visited + 1 && Ends(ops, store, failOnErrors, order, run.states, run.Now())
    // an operation starts with errors below the limit and with nothing pending that it may need
    ensures forall k | 0 <= k < visited ::
              && (failOnErrors > 0 ==> CountErrors(run.states[k].results) < failOnErrors)
              && NonePendingFor(Views(ops), BulkOf(ops, store), order[k], run.states[k].fixups)
    // deferred references: each handled once, none left
    ensures run.fixups == [] && Ledger(run.issued, run.handled, [], run.created.Keys)
    // records, results and bulkIds agree
    ensures Records(run.calls, run.Now())
    ensures Trusted(run.calls, store) ==> Bound(run.Now()) && Rows(run.Now())
    // every reference of a surviving resource has been stored, and is still, unless changed or deleted since
    ensures Trusted(run.calls, store) ==>
              forall i: nat, r | Surviving(run.Now(), i) && i < |run.calls| && run.calls[i].Call?
                                 && Wanted(run.calls, run.producers, i, r) :: Honoured(run.Now(), i, r)
    // no survivor depends on anything rolled back, if the data name the request's resources only where that can wait
    ensures Trusted(run.calls, store) && NoLateReference(run.calls, run.producers) ==> Settled(run.Now())
  {
    var tasks := Views(ops);
    var producers := CollectProducers(tasks);
    var closure := ComputePostProducerClosure(tasks, producers);
    order := ComputeBulkExecutionOrder(tasks, producers);
    ScheduleDrives(ops, store, order);
    run := new Executor(Calls(ops), producers, closure, store);
    visited := run.Run(order, failOnErrors);
    RunKeepsPromises(ops, store, failOnErrors, order, run.states, run.Now());
    response := Collect(run.results);
  }
}
