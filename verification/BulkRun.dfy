/**
 The bulk executor: it runs the scheduled operations, defers references it cannot resolve
 yet, applies them once everything they may depend on is done, rolls back what fails and
 what depends on it, and counts errors (section 3.7 of RFC 7644).
 */
module BulkRun {
  import opened Text
  import opened BulkRequest
  import opened BulkState
  import opened BulkCascade

  // ----- one operation, as a function of the state

  /** The identifier that an operation's path leads to, once a bulkId in it is replaced. */
  function TargetId(op: Call, bulkIdMap: map<string, ResourceId>): Option<ResourceId>
    requires op.Call?
  {
    match op.address
    case Nowhere => None
    case ById(id) => Some(id)
    case ByRef(r) => if r in bulkIdMap then Some(bulkIdMap[r]) else None
  }

  predicate Creates(bulkIdMap: map<string, ResourceId>, erased: set<ResourceId>, op: Call, store: Store, i: nat)
    requires op.Call?
  {
    op.verb == Post && !op.blankId && op.hasData && store.create(i).Created? && MembersThere(bulkIdMap, erased, op)
  }

  /** A PUT, PATCH or DELETE that succeeds: what it addresses is there. */
  predicate Updates(bulkIdMap: map<string, ResourceId>, erased: set<ResourceId>, op: Call, store: Store, i: nat)
    requires op.Call?
  {
    && (op.verb == Delete || ((op.verb == Put || op.verb == Patch) && op.hasData))
    && TargetId(op, bulkIdMap).Some? && TargetId(op, bulkIdMap).value !in erased
    && store.update(i).Updated?
  }

  /** The result of an operation that changes nothing. */
  function Refusal(bulkIdMap: map<string, ResourceId>, erased: set<ResourceId>, op: Call, store: Store, i: nat): Result
    requires op.Call? && !Creates(bulkIdMap, erased, op, store, i) && !Updates(bulkIdMap, erased, op, store, i)
  {
    if op.verb == Unsupported then Result(400, None, None)
    else if op.verb == Post then
      if op.blankId || !op.hasData then Result(400, None, None)
      else if store.create(i).Rejected? then Result(store.create(i).status, None, None)
      else Result(404, None, None)
    else if op.verb != Delete && !op.hasData then Result(400, op.target, None)
    else
      match TargetId(op, bulkIdMap)
      case None => Result(400, op.target, None)
      case Some(id) => Result(if id in erased then 404 else store.update(i).status, op.target, None)
  }

  function UpdateResult(op: Call, version: nat): Result
    requires op.Call?
  {
    if op.verb == Delete then Result(204, op.target, None) else Result(200, op.target, Some(version))
  }

  function Process(s: State, op: Call, producers: map<string, nat>, store: Store, i: nat): State
    requires op.Call? && i < |s.results| && s.linked.Keys <= s.created.Keys
  {
    if Creates(s.bulkIdMap, s.erased, op, store, i) then Create(s, op, producers, i, store.create(i).id, store.create(i).version)
    else if Updates(s.bulkIdMap, s.erased, op, store, i) then
      Update(s, op.verb, i, TargetId(op, s.bulkIdMap).value, store.leaves(i), UpdateResult(op, store.update(i).version))
    else s.(results := s.results[i := Some(Refusal(s.bulkIdMap, s.erased, op, store, i))])
  }

  // ----- the premises under which bulkIds identify resources

  /** POSTs without a bulkId are rejected and need not differ. */
  ghost predicate DistinctBulkIds(calls: seq<Call>) {
    forall i, j | 0 <= i < j < |calls| && Declaring(calls[i]) && Declaring(calls[j]) :: calls[i].bulkId != calls[j].bulkId
  }

  predicate Declaring(call: Call) {
    call.IsPost() && !call.blankId
  }

  /** Created resources carry the identifiers the store gave to POSTs of the request. */
  ghost predicate FromStore(calls: seq<Call>, store: Store, s: State) {
    forall i | i in s.created :: Origin(calls, store, s.created[i], i)
  }

  ghost predicate Origin(calls: seq<Call>, store: Store, rec: CreatedPost, i: nat) {
    && i < |calls| && calls[i].IsPost() && !calls[i].blankId && rec.bulkId == calls[i].bulkId
    && store.create(i).Created? && rec.id == store.create(i).id
  }

  ghost predicate Trusted(calls: seq<Call>, store: Store) {
    DistinctBulkIds(calls) && FreshIds(store)
  }

  lemma RecordsAreUnique(calls: seq<Call>, store: Store, s: State)
    requires Trusted(calls, store) && FromStore(calls, store, s)
    ensures UniqueRecords(s)
  {
    forall i, j | i in s.created && j in s.created && i != j
      ensures Differ(s.created[i], s.created[j])
    {
      assert Origin(calls, store, s.created[i], i) && Origin(calls, store, s.created[j], j);
      assert Declaring(calls[i]) && Declaring(calls[j]);
      if i < j {
        assert calls[i].bulkId != calls[j].bulkId;
      } else {
        assert calls[j].bulkId != calls[i].bulkId;
      }
    }
  }

  lemma OriginsStay(calls: seq<Call>, store: Store, s: State, t: State)
    requires FromStore(calls, store, s) && t.created.Keys == s.created.Keys
    requires forall i | i in s.created :: t.created[i].bulkId == s.created[i].bulkId && t.created[i].id == s.created[i].id
    ensures FromStore(calls, store, t)
  {
    forall i | i in t.created
      ensures Origin(calls, store, t.created[i], i)
    {
      assert Origin(calls, store, s.created[i], i);
    }
  }

  ghost predicate ForRecord(s: State, f: Fixup) {
    f.origIdx in s.created && f.isGroup == s.created[f.origIdx].isGroup
  }

  /** What holds of the state between operations; pending are the fixups still to be applied. */
  ghost predicate Sane(calls: seq<Call>, producers: map<string, nat>, store: Store, s: State, pending: seq<Fixup>) {
    && Records(calls, s) && FromStore(calls, store, s)
    && (forall k | 0 <= k < |pending| :: ForRecord(s, pending[k]))
    && (Trusted(calls, store) ==> Bound(s) && Rows(s) && References(calls, producers, s, pending))
  }

  /** The same in the middle of the compensation phase. */
  ghost predicate Shaky(calls: seq<Call>, producers: map<string, nat>, store: Store, s: State, pending: seq<Fixup>) {
    && Records(calls, s) && FromStore(calls, store, s)
    && (forall k | 0 <= k < |pending| :: ForRecord(s, pending[k]))
    && (Trusted(calls, store) ==> Bound(s) && Rows(s) && ReferencesOrGone(calls, producers, s, pending))
  }

  /** When no survivor depends on anything gone, every wanted reference is stored or pending again. */
  lemma SettledIsSane(calls: seq<Call>, producers: map<string, nat>, store: Store, s: State, pending: seq<Fixup>)
    requires Shaky(calls, producers, store, s, pending) && Settled(s)
    ensures Sane(calls, producers, store, s, pending)
  {
    if Trusted(calls, store) {
      forall i: nat, r | Surviving(s, i) && i < |calls| && calls[i].Call? && Wanted(calls, producers, i, r)
        ensures Honoured(s, i, r) || Pending(pending, i, r)
      {
        assert RecordOk(calls, s, i);
        assert r in s.created[i].deps;
      }
    }
  }

  lemma RollbackKeepsOrigins(calls: seq<Call>, store: Store, s: State, pending: seq<Fixup>, i: nat, status: ErrorStatus)
    requires i in s.created && i < |s.results| && s.linked.Keys <= s.created.Keys && FromStore(calls, store, s)
    requires forall k | 0 <= k < |pending| :: ForRecord(s, pending[k])
    ensures FromStore(calls, store, Rollback(s, i, status))
    ensures forall k | 0 <= k < |pending| :: ForRecord(Rollback(s, i, status), pending[k])
  {
    OriginsStay(calls, store, s, Rollback(s, i, status));
  }

  lemma RollbackKeepsShaky(calls: seq<Call>, producers: map<string, nat>, store: Store, s: State, pending: seq<Fixup>, i: nat, status: ErrorStatus)
    requires Shaky(calls, producers, store, s, pending) && i in s.created
    ensures i < |s.results| && Shaky(calls, producers, store, Rollback(s, i, status), pending)
  {
    RollbackKeepsRecords(calls, s, i, status);
    RollbackKeepsOrigins(calls, store, s, pending, i, status);
    if Trusted(calls, store) {
      RecordsAreUnique(calls, store, s);
      RollbackKeepsBound(s, i, status);
      RollbackKeepsReferences(calls, producers, s, pending, i, status);
    }
  }

  lemma ApplyKeepsIdentity(s: State, store: Store, f: Fixup)
    requires f.origIdx in s.created && f.origIdx < |s.results| && s.linked.Keys <= s.created.Keys
    ensures var t := ApplyFixup(s, store, f);
            && t.created.Keys == s.created.Keys
            && forall i | i in s.created ::
                 && t.created[i].bulkId == s.created[i].bulkId && t.created[i].id == s.created[i].id
                 && t.created[i].isGroup == s.created[i].isGroup
  {
  }

  lemma ApplyKeepsOrigins(calls: seq<Call>, store: Store, s: State, f: Fixup, rest: seq<Fixup>)
    requires f.origIdx in s.created && f.origIdx < |s.results| && s.linked.Keys <= s.created.Keys && FromStore(calls, store, s)
    requires forall k | 0 <= k < |[f] + rest| :: ForRecord(s, ([f] + rest)[k])
    ensures FromStore(calls, store, ApplyFixup(s, store, f))
    ensures forall k | 0 <= k < |rest| :: ForRecord(ApplyFixup(s, store, f), rest[k])
  {
    ApplyKeepsIdentity(s, store, f);
    OriginsStay(calls, store, s, ApplyFixup(s, store, f));
    forall k | 0 <= k < |rest|
      ensures ForRecord(s, rest[k])
    {
      assert ([f] + rest)[k + 1] == rest[k];
    }
  }

  lemma ApplyKeepsShaky(calls: seq<Call>, producers: map<string, nat>, store: Store, s: State, f: Fixup, rest: seq<Fixup>)
    requires Shaky(calls, producers, store, s, [f] + rest)
    ensures f.origIdx in s.created && f.origIdx < |s.results|
    ensures Shaky(calls, producers, store, ApplyFixup(s, store, f), rest)
  {
    assert ([f] + rest)[0] == f;
    ApplyKeepsRecords(calls, s, store, f);
    ApplyKeepsOrigins(calls, store, s, f, rest);
    if Trusted(calls, store) {
      RecordsAreUnique(calls, store, s);
      ApplyKeepsBound(s, store, f);
      ApplyKeepsReferences(calls, producers, s, store, f, rest);
    }
  }

  lemma ProcessKeepsSane(calls: seq<Call>, producers: map<string, nat>, store: Store, s: State, i: nat)
    requires Sane(calls, producers, store, s, s.fixups)
    requires i < |calls| && calls[i].Call? && i !in s.created && s.results[i].None?
    ensures var t := Process(s, calls[i], producers, store, i); Sane(calls, producers, store, t, t.fixups)
  {
    var op := calls[i];
    if Creates(s.bulkIdMap, s.erased, op, store, i) {
      CreateKeepsSane(calls, producers, store, s, i);
    } else if Updates(s.bulkIdMap, s.erased, op, store, i) {
      UpdateKeepsSane(calls, producers, store, s, op.verb, i, TargetId(op, s.bulkIdMap).value, store.leaves(i),
                      UpdateResult(op, store.update(i).version));
    } else {
      PlainKeepsSane(calls, producers, store, s, i, Refusal(s.bulkIdMap, s.erased, op, store, i));
    }
  }

  lemma CreateKeepsPending(calls: seq<Call>, producers: map<string, nat>, store: Store, s: State, i: nat)
    requires i < |calls| && calls[i].Call? && i !in s.created && i < |s.results|
    requires store.create(i).Created? && forall k | 0 <= k < |s.fixups| :: ForRecord(s, s.fixups[k])
    ensures var t := Create(s, calls[i], producers, i, store.create(i).id, store.create(i).version);
            forall k | 0 <= k < |t.fixups| :: ForRecord(t, t.fixups[k])
  {
    var t := Create(s, calls[i], producers, i, store.create(i).id, store.create(i).version);
    forall k | 0 <= k < |s.fixups|
      ensures ForRecord(t, s.fixups[k])
    {
      assert ForRecord(s, s.fixups[k]);
    }
  }

  lemma CreateKeepsSane(calls: seq<Call>, producers: map<string, nat>, store: Store, s: State, i: nat)
    requires Sane(calls, producers, store, s, s.fixups)
    requires i < |calls| && calls[i].Call? && i !in s.created && Creates(s.bulkIdMap, s.erased, calls[i], store, i)
    ensures var t := Create(s, calls[i], producers, i, store.create(i).id, store.create(i).version);
            Sane(calls, producers, store, t, t.fixups)
  {
    var id, version := store.create(i).id, store.create(i).version;
    var t := Create(s, calls[i], producers, i, id, version);
    CreateKeepsRecords(calls, producers, s, i, id, version);
    forall j | j in t.created
      ensures Origin(calls, store, t.created[j], j)
    {
      assert j == i || Origin(calls, store, s.created[j], j);
    }
    assert FromStore(calls, store, t);
    CreateKeepsPending(calls, producers, store, s, i);
    if Trusted(calls, store) {
      RecordsAreUnique(calls, store, t);
      CreateKeepsBound(calls, producers, s, i, id, version);
      CreateKeepsReferences(calls, producers, s, i, id, version);
    }
  }

  lemma UpdateKeepsSane(calls: seq<Call>, producers: map<string, nat>, store: Store, s: State, verb: Verb, i: nat,
                        id: ResourceId, left: set<ResourceId>, result: Result)
    requires Sane(calls, producers, store, s, s.fixups)
    requires i < |calls| && i !in s.created && id !in s.erased
    ensures Sane(calls, producers, store, Update(s, verb, i, id, left, result), s.fixups)
  {
    var t := Update(s, verb, i, id, left, result);
    UpdateKeepsRecords(calls, s, verb, i, id, left, result);
    OriginsStay(calls, store, s, t);
    assert forall k | 0 <= k < |s.fixups| :: ForRecord(s, s.fixups[k]) ==> ForRecord(t, s.fixups[k]);
    if Trusted(calls, store) {
      UpdateKeepsBound(s, verb, i, id, left, result);
      UpdateKeepsReferences(calls, producers, s, verb, i, id, left, result);
    }
  }

  lemma PlainKeepsRecords(calls: seq<Call>, s: State, i: nat, r: Result)
    requires Records(calls, s) && i < |calls| && i !in s.created
    ensures Records(calls, s.(results := s.results[i := Some(r)]))
  {
    var t := s.(results := s.results[i := Some(r)]);
    forall j | j in t.created
      ensures RecordOk(calls, t, j)
    {
      assert RecordOk(calls, s, j);
    }
    forall j, b
      ensures RolledBackAs(t, j, b) <==> RolledBackAs(s, j, b)
    {
    }
  }

  lemma PlainKeepsBound(s: State, results: seq<Option<Result>>)
    requires Bound(s) && Rows(s)
    ensures Bound(s.(results := results)) && Rows(s.(results := results))
  {
    var t := s.(results := results);
    forall b | b in t.bulkIdMap
      ensures exists j :: SurvivingAs(t, j, b, t.bulkIdMap[b])
    {
      var j :| SurvivingAs(s, j, b, s.bulkIdMap[b]);
      assert SurvivingAs(t, j, b, t.bulkIdMap[b]);
    }
    forall j | Surviving(t, j)
      ensures t.created[j].bulkId in t.bulkIdMap && t.bulkIdMap[t.created[j].bulkId] == t.created[j].id
    {
      assert Surviving(s, j);
    }
    assert forall j :: Surviving(t, j) <==> Surviving(s, j);
  }

  lemma PlainKeepsReferences(calls: seq<Call>, producers: map<string, nat>, s: State, results: seq<Option<Result>>)
    requires References(calls, producers, s, s.fixups)
    ensures References(calls, producers, s.(results := results), s.fixups)
  {
    var t := s.(results := results);
    forall i: nat, r | Surviving(t, i) && i < |calls| && calls[i].Call? && Wanted(calls, producers, i, r)
      ensures Honoured(t, i, r) || Pending(s.fixups, i, r)
    {
      assert Surviving(s, i);
      if Honoured(s, i, r) {
        assert Honoured(t, i, r);
      }
    }
  }

  lemma PlainKeepsSane(calls: seq<Call>, producers: map<string, nat>, store: Store, s: State, i: nat, r: Result)
    requires Sane(calls, producers, store, s, s.fixups)
    requires i < |calls| && i !in s.created
    ensures Sane(calls, producers, store, s.(results := s.results[i := Some(r)]), s.fixups)
  {
    PlainKeepsRecords(calls, s, i, r);
    OriginsStay(calls, store, s, s.(results := s.results[i := Some(r)]));
    if Trusted(calls, store) {
      PlainKeepsBound(s, s.results[i := Some(r)]);
      PlainKeepsReferences(calls, producers, s, s.results[i := Some(r)]);
    }
  }

  // ----- the cascade

  ghost predicate InEveryClosed(start: State, gone: set<nat>) {
    forall other: set<nat> | Closed(start, other) :: RolledBack(start) + gone <= other
  }

  /** The cascade has rolled back gone, all of it part of every closed set. */
  ghost predicate Cascading(calls: seq<Call>, start: State, now: State, gone: set<nat>) {
    && Records(calls, start)
    && gone <= start.created.Keys && gone !! RolledBack(start)
    && now == RollbackSet(start, gone)
    && InEveryClosed(start, gone)
  }

  /** Whether the survivors that were looked at depend on nothing gone. */
  ghost predicate SettledBut(s: State, todo: set<nat>) {
    forall i | Surviving(s, i) && i !in todo :: Unaffected(s, i)
  }

  predicate Unaffected(s: State, i: nat)
    requires i in s.created
  {
    !AnyGone(s.created[i].deps, s.rolledBackIds)
  }

  predicate AnyGone(deps: seq<string>, rolledBackIds: set<string>) {
    exists d :: d in deps && d in rolledBackIds
  }

  lemma LookedAt(s: State, todo: set<nat>, i: nat)
    requires SettledBut(s, todo) && (Surviving(s, i) ==> Unaffected(s, i))
    ensures SettledBut(s, todo - {i})
  {
  }

  lemma DependencyWithin(calls: seq<Call>, start: State, gone: set<nat>, i: nat)
    requires Records(calls, start) && gone <= start.created.Keys && i in start.created
    requires !Unaffected(RollbackSet(start, gone), i)
    ensures exists j :: j in RolledBack(start) + gone && DependsOn(start, i, j)
  {
    var now := RollbackSet(start, gone);
    var d :| d in now.created[i].deps && d in now.rolledBackIds;
    if d in IdsOf(start, gone) {
      var j :| j in gone && start.created[j].bulkId == d;
      assert DependsOn(start, i, j);
    } else {
      var j :| RolledBackAs(start, j, d);
      assert DependsOn(start, i, j);
    }
  }

  lemma InEveryClosedGrows(start: State, gone: set<nat>, i: nat)
    requires InEveryClosed(start, gone)
    requires exists j :: j in RolledBack(start) + gone && DependsOn(start, i, j)
    ensures InEveryClosed(start, gone + {i})
  {
    var j :| j in RolledBack(start) + gone && DependsOn(start, i, j);
    forall other: set<nat> | Closed(start, other)
      ensures RolledBack(start) + (gone + {i}) <= other
    {
      assert j in other;
      assert i in other;
    }
  }

  lemma SurvivorIsNew(start: State, now: State, gone: set<nat>, i: nat)
    requires gone <= start.created.Keys && start.linked.Keys <= start.created.Keys
    requires now == RollbackSet(start, gone) && Surviving(now, i)
    ensures i in start.created && i !in gone && !start.created[i].rolledBack
    ensures |now.results| == |start.results| && now.linked.Keys <= now.created.Keys
  {
  }

  lemma CascadeStep(calls: seq<Call>, start: State, now: State, gone: set<nat>, i: nat)
    requires Cascading(calls, start, now, gone)
    requires Surviving(now, i) && !Unaffected(now, i) && i < |now.results|
    ensures i in start.created && i !in gone && now.linked.Keys <= now.created.Keys
    ensures Cascading(calls, start, Rollback(now, i, 400), gone + {i})
  {
    SurvivorIsNew(start, now, gone, i);
    assert Rollback(now, i, 400) == RollbackSet(start, gone + {i}) by {
      RollbackSetGrows(start, gone, i);
    }
    assert InEveryClosed(start, gone + {i}) by {
      DependencyWithin(calls, start, gone, i);
      InEveryClosedGrows(start, gone, i);
    }
  }

  lemma CascadeEnds(calls: seq<Call>, producers: map<string, nat>, store: Store, start: State, now: State, gone: set<nat>)
    requires Cascading(calls, start, now, gone) && Shaky(calls, producers, store, now, start.fixups)
    requires SettledBut(now, {})
    ensures Compensated(start, now) && Settled(now)
    ensures Sane(calls, producers, store, now, start.fixups)
  {
    assert Settled(now) by {
      forall i, d | Surviving(now, i) && d in now.created[i].deps
        ensures d !in now.rolledBackIds
      {
        assert Unaffected(now, i);
      }
    }
    SettledIsSane(calls, producers, store, now, start.fixups);
    SettledIsClosed(calls, start, now, gone);
    assert CompensatedBy(start, now, gone);
  }

  lemma SettledIsClosed(calls: seq<Call>, start: State, now: State, gone: set<nat>)
    requires Records(calls, now) && start.linked.Keys <= start.created.Keys && gone <= start.created.Keys
    requires now == RollbackSet(start, gone) && SettledBut(now, {})
    ensures Closed(start, RolledBack(start) + gone)
  {
    var all := RolledBack(start) + gone;
    forall i, j | j in all && DependsOn(start, i, j)
      ensures i in all
    {
      assert RolledBackAs(now, j, start.created[j].bulkId);
      assert !Unaffected(now, i);
      assert !Surviving(now, i);
    }
  }
}
