/**
 What is pending in a run: nothing that an operation other than a POST may need when it
 starts, and nothing at all once the schedule has ended.
 */
module BulkPending {
  import opened Text
  import opened BulkRequest
  import opened BulkClosure
  import opened BulkSchedule
  import opened BulkState
  import opened BulkRun
  import opened BulkTrace

  /** The tasks describe the request: its closure table is theirs, and POSTs are objects. */
  ghost predicate Describes(tasks: seq<Task>, b: Bulk) {
    && |tasks| == |b.calls| && IsClosureOf(tasks, b.producers, b.closure)
    && forall i | 0 <= i < |tasks| && tasks[i].post :: b.calls[i].Call?
  }

  /** Operation i is not a POST and names the declared bulkId r. */
  ghost predicate NeedsFirst(tasks: seq<Task>, producers: map<string, nat>, i: nat, r: string) {
    i < |tasks| && !tasks[i].post && r in tasks[i].refs && r in producers
  }

  /** Operations other than POSTs come after what they may need. */
  ghost predicate Drives(tasks: seq<Task>, b: Bulk, order: seq<nat>) {
    && Describes(tasks, b)
    && forall k, r | 0 <= k < |order| && NeedsFirst(tasks, b.producers, order[k], r) ::
         b.closure[b.producers[r]] <= Elements(order[..k])
  }

  /** No fixup of any POST that a bulkId named by operation i depends on is pending. */
  ghost predicate NonePendingFor(tasks: seq<Task>, b: Bulk, i: nat, pending: seq<Fixup>) {
    forall r, k | NeedsFirst(tasks, b.producers, i, r) && 0 <= k < |pending| ::
      b.producers[r] in b.closure && pending[k].origIdx !in b.closure[b.producers[r]]
  }

  ghost predicate NoneReady(b: Bulk, completed: set<nat>, s: State) {
    forall k | 0 <= k < |s.fixups| :: !ReadyFor(b.closure, completed, s.fixups[k])
  }

  lemma NoCallReadiesNothing(tasks: seq<Task>, b: Bulk, completed: set<nat>, i: nat, s: State)
    requires Describes(tasks, b) && i < |b.calls| && b.calls[i].NoCall? && NoneReady(b, completed, s)
    ensures NoneReady(b, completed + {i}, s)
  {
    forall k | 0 <= k < |s.fixups|
      ensures !ReadyFor(b.closure, completed + {i}, s.fixups[k])
    {
      var p := s.fixups[k].origIdx;
      assert !ReadyFor(b.closure, completed, s.fixups[k]);
      var q :| q in b.closure[p] && q !in completed;
      assert q in b.closure.Keys;
      assert q != i;
    }
  }

  lemma ResolvesLeavesNoneReady(b: Bulk, completed: set<nat>, m: State, t: State)
    requires Resolves(b, completed, m, t)
    ensures NoneReady(b, completed, t)
  {
    var ready, rest := Select(m.fixups, b.closure, completed, true), Select(m.fixups, b.closure, completed, false);
    NoneDue(m.fixups, b.closure, completed);
    if ready != [] {
      PhaseKeepsShape(m.(fixups := rest), b.store, ready, t);
    }
  }

  lemma RoundLeavesNoneReady(tasks: seq<Task>, b: Bulk, completed: set<nat>, i: nat, s: State, t: State)
    requires Describes(tasks, b) && NoneReady(b, completed, s) && Round(b, completed, i, s, t)
    ensures NoneReady(b, completed + {i}, t)
  {
    if b.calls[i].NoCall? {
      NoCallReadiesNothing(tasks, b, completed, i, s);
    } else {
      ResolvesLeavesNoneReady(b, completed + {i}, Process(s, b.calls[i], b.producers, b.store, i), t);
    }
  }

  lemma StepLeavesNoneReady(tasks: seq<Task>, b: Bulk, order: seq<nat>, states: seq<State>, k: nat)
    requires Describes(tasks, b) && IsTrace(b, order, states) && Distinct(order) && k < |order|
    requires NoneReady(b, Elements(order[..k]), states[k])
    ensures NoneReady(b, Elements(order[..k + 1]), states[k + 1])
  {
    TraceStep(b, order, states, k);
    RoundLeavesNoneReady(tasks, b, Elements(order[..k]), order[k], states[k], states[k + 1]);
  }

  lemma NoneReadyYet(b: Bulk)
    ensures NoneReady(b, {}, Initial(|b.calls|))
  {
  }

  lemma {:induction false} NoneReadyBetween(tasks: seq<Task>, b: Bulk, order: seq<nat>, states: seq<State>, k: nat)
    requires Describes(tasks, b) && IsTrace(b, order, states) && Distinct(order) && k <= |order|
    ensures NoneReady(b, Elements(order[..k]), states[k])
  {
    if k == 0 {
      NoneReadyYet(b);
      assert Elements(order[..0]) == {};
    } else {
      NoneReadyBetween(tasks, b, order, states, k - 1);
      StepLeavesNoneReady(tasks, b, order, states, k - 1);
    }
  }

  /** An operation other than a POST finds nothing pending of what it may need. */
  lemma StartsWithNothingPending(tasks: seq<Task>, b: Bulk, order: seq<nat>, failOnErrors: int, states: seq<State>, end: State, k: nat)
    requires Drives(tasks, b, order) && Distinct(order) && RunsTo(b, order, failOnErrors, states, end) && k < |states| - 1
    ensures NonePendingFor(tasks, b, order[k], states[k].fixups)
  {
    var ran := order[..|states| - 1];
    NoneReadyBetween(tasks, b, ran, states, k);
    assert ran[..k] == order[..k];
    forall r, j | NeedsFirst(tasks, b.producers, order[k], r) && 0 <= j < |states[k].fixups|
      ensures b.producers[r] in b.closure && states[k].fixups[j].origIdx !in b.closure[b.producers[r]]
    {
      assert b.producers[r] in b.closure && b.closure[b.producers[r]] <= Elements(order[..k]);
      assert !ReadyFor(b.closure, Elements(order[..k]), states[k].fixups[j]);
    }
  }

  lemma AllReadyAtTheEnd(tasks: seq<Task>, b: Bulk, order: seq<nat>)
    requires Describes(tasks, b) && Permutation(order, |tasks|)
    ensures forall f: Fixup :: ReadyFor(b.closure, Elements(order), f)
  {
    Remaining(order, |tasks|);
    forall f: Fixup | f.origIdx in b.closure
      ensures b.closure[f.origIdx] <= Elements(order)
    {
      forall q | q in b.closure[f.origIdx]
        ensures q in order
      {
        assert q in b.closure.Keys;
      }
    }
  }

  lemma {:induction false} NoneIsTaken(fixups: seq<Fixup>, closure: map<nat, set<nat>>, completed: set<nat>)
    requires forall k | 0 <= k < |fixups| :: !ReadyFor(closure, completed, fixups[k])
    ensures Select(fixups, closure, completed, false) == fixups
  {
    if fixups != [] {
      NoneIsTaken(fixups[..|fixups| - 1], closure, completed);
      assert fixups == fixups[..|fixups| - 1] + [fixups[|fixups| - 1]];
    }
  }

  lemma {:induction false} AllAreTaken(fixups: seq<Fixup>, closure: map<nat, set<nat>>, completed: set<nat>)
    requires forall f: Fixup :: ReadyFor(closure, completed, f)
    ensures Select(fixups, closure, completed, false) == []
  {
    if fixups != [] {
      AllAreTaken(fixups[..|fixups| - 1], closure, completed);
    }
  }

  /** When the whole schedule has run, nothing is pending. */
  lemma NothingPendingAtTheEnd(tasks: seq<Task>, b: Bulk, order: seq<nat>, states: seq<State>)
    requires Describes(tasks, b) && Permutation(order, |tasks|) && IsTrace(b, order, states)
    ensures states[|order|].fixups == []
  {
    NoneReadyBetween(tasks, b, order, states, |order|);
    assert order[..|order|] == order;
    AllReadyAtTheEnd(tasks, b, order);
    NoneIsTaken(states[|order|].fixups, b.closure, Elements(order));
    AllAreTaken(states[|order|].fixups, b.closure, Elements(order));
  }
}
