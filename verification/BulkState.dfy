/**
 The state of a bulk run and its steps as functions: creating a resource, rolling one back,
 applying a deferred reference, and what these steps keep.
 */
module BulkState {
  import opened Text
  import opened BulkRequest

  type ErrorStatus = s: nat | 400 <= s < 600 witness 500

  datatype Result = Result(status: nat, location: Option<Location>, version: Option<nat>)

  predicate IsError(result: Option<Result>) {
    result.Some? && result.value.status >= 400
  }

  function CountErrors(results: seq<Option<Result>>): nat {
    if results == [] then 0
    else CountErrors(results[..|results| - 1]) + if IsError(results[|results| - 1]) then 1 else 0
  }

  datatype CreatedPost = CreatedPost(isGroup: bool, id: ResourceId, bulkId: string, deps: seq<string>, rolledBack: bool)

  /** References of a created resource that wait until their producers are done. */
  datatype Fixup = Fixup(origIdx: nat, isGroup: bool, refs: seq<string>)

  /**
   What the store answers; an operation is created, updated or fixed up at most once in a run.
   leaves is the members or the manager that a PUT or PATCH leaves its resource with.
   */
  datatype CreateOutcome = Rejected(status: ErrorStatus) | Created(id: ResourceId, version: nat)
  datatype UpdateOutcome = NotUpdated(status: ErrorStatus) | Updated(version: nat)
  datatype Store = Store(create: nat -> CreateOutcome, update: nat -> UpdateOutcome, leaves: nat -> set<ResourceId>,
                         admit: (nat, nat) -> Option<ErrorStatus>, version: nat -> nat)

  /** New identifiers are never handed out twice. */
  ghost predicate FreshIds(store: Store) {
    forall i, j | i != j && store.create(i).Created? && store.create(j).Created? ::
      store.create(i).id != store.create(j).id
  }

  /**
   linked[i] are the identifiers stored in resource i as its members or manager, and erased
   those of resources whose rows are gone. rewritten[i] is what the last PUT or PATCH of
   resource i left in it, with the references stored for it since.
   */
  datatype State = State(bulkIdMap: map<string, ResourceId>, results: seq<Option<Result>>, fixups: seq<Fixup>,
                         created: map<nat, CreatedPost>, rolledBackIds: set<string>,
                         linked: map<nat, set<ResourceId>>, erased: set<ResourceId>, rewritten: map<nat, set<ResourceId>>)

  function Initial(n: nat): State {
    State(map[], seq(n, _ => None), [], map[], {}, map[], {}, map[])
  }

  // ----- rolling a created resource back

  /** The links left after a resource and every member row that names it are gone; managers stay. */
  function Erase(linked: map<nat, set<ResourceId>>, created: map<nat, CreatedPost>, id: ResourceId): map<nat, set<ResourceId>>
    requires linked.Keys <= created.Keys
  {
    map j | j in linked && created[j].id != id :: if created[j].isGroup then linked[j] - {id} else linked[j]
  }

  function Rollback(s: State, i: nat, status: ErrorStatus): State
    requires i in s.created && i < |s.results| && s.linked.Keys <= s.created.Keys
  {
    var rec := s.created[i];
    if rec.rolledBack then s
    else
      s.(created := s.created[i := rec.(rolledBack := true)],
         bulkIdMap := s.bulkIdMap - {rec.bulkId},
         rolledBackIds := s.rolledBackIds + {rec.bulkId},
         linked := Erase(s.linked, s.created, rec.id),
         erased := s.erased + {rec.id},
         results := if s.results[i].Some? then s.results[i := Some(Result(status, None, None))] else s.results)
  }

  // ----- creating a resource

  predicate Deferred(op: Call, producers: map<string, nat>, bulkIdMap: map<string, ResourceId>, r: string)
    requires op.Call?
  {
    r !in bulkIdMap && r != "" && r != op.bulkId && r in producers
  }

  function DeferredRefs(op: Call, producers: map<string, nat>, bulkIdMap: map<string, ResourceId>, refs: seq<string>): (d: seq<string>)
    requires op.Call?
    ensures forall r :: r in d <==> r in refs && Deferred(op, producers, bulkIdMap, r)
  {
    if refs == [] then []
    else
      var before := DeferredRefs(op, producers, bulkIdMap, refs[..|refs| - 1]);
      var r := refs[|refs| - 1];
      if Deferred(op, producers, bulkIdMap, r) then before + [r] else before
  }

  /** The state after POST i created a resource with the given identifier. */
  function Create(s: State, op: Call, producers: map<string, nat>, i: nat, id: ResourceId, version: nat): State
    requires op.Call? && i < |s.results|
  {
    var deferred := DeferredRefs(op, producers, s.bulkIdMap, op.deferrable);
    s.(results := s.results[i := Some(Result(201, Some(OfCreated(id)), Some(version)))],
       bulkIdMap := s.bulkIdMap[op.bulkId := id],
       created := s.created[i := CreatedPost(op.isGroup, id, op.bulkId, op.DataRefs(), false)],
       linked := s.linked[i := Resolved(s.bulkIdMap, op.deferrable)],
       erased := s.erased - {id},
       fixups := if deferred == [] then s.fixups else s.fixups + [Fixup(i, op.isGroup, deferred)])
  }

  /** The identifiers that references stand for. */
  function Resolved(bulkIdMap: map<string, ResourceId>, refs: seq<string>): set<ResourceId> {
    set r | r in refs && r in bulkIdMap :: bulkIdMap[r]
  }

  // ----- updating and deleting an addressed resource

  /** The links that a PUT or PATCH of the addressed resource leaves; a group has no members that are gone. */
  function Rewrite(s: State, id: ResourceId, left: set<ResourceId>): map<nat, set<ResourceId>>
    requires s.linked.Keys <= s.created.Keys
  {
    map j | j in s.linked && s.created[j].id == id :: if s.created[j].isGroup then left - s.erased else left
  }

  /** The state after a PUT, PATCH or DELETE of the resource with the given identifier succeeded. */
  function Update(s: State, verb: Verb, i: nat, id: ResourceId, left: set<ResourceId>, result: Result): State
    requires i < |s.results| && s.linked.Keys <= s.created.Keys
  {
    var t := s.(results := s.results[i := Some(result)]);
    if verb == Delete then t.(linked := Erase(s.linked, s.created, id), erased := s.erased + {id})
    else t.(linked := s.linked + Rewrite(s, id, left), rewritten := s.rewritten + Rewrite(s, id, left))
  }

  // ----- applying a deferred reference

  /**
   The first error met when the references from k on are stored, those already seen skipped;
   a group takes no member that is gone.
   */
  function FixError(s: State, store: Store, f: Fixup, k: nat, seen: set<ResourceId>): (e: Option<ErrorStatus>)
    requires k <= |f.refs|
    ensures e.None? ==> forall j | k <= j < |f.refs| :: f.refs[j] in s.bulkIdMap
    ensures e.None? && f.isGroup && seen !! s.erased ==> forall j | k <= j < |f.refs| :: s.bulkIdMap[f.refs[j]] !in s.erased
    decreases |f.refs| - k
  {
    if k == |f.refs| then
      if f.isGroup || f.origIdx in s.linked then None else Some(500)
    else if f.refs[k] !in s.bulkIdMap then Some(400)
    else
      var id := s.bulkIdMap[f.refs[k]];
      if f.isGroup && id in seen then FixError(s, store, f, k + 1, seen)
      else if store.admit(f.origIdx, k).Some? then store.admit(f.origIdx, k)
      else if f.isGroup && id in s.erased then Some(404)
      else FixError(s, store, f, k + 1, seen + {id})
  }

  /** The links with more identifiers for resource i, if its row is still there. */
  function Extend(linked: map<nat, set<ResourceId>>, i: nat, stored: set<ResourceId>): map<nat, set<ResourceId>> {
    if i in linked then linked[i := linked[i] + stored] else linked
  }

  function ApplyFixup(s: State, store: Store, f: Fixup): State
    requires f.origIdx in s.created && f.origIdx < |s.results| && s.linked.Keys <= s.created.Keys
  {
    var i := f.origIdx;
    if s.created[i].rolledBack then s
    else
      match FixError(s, store, f, 0, {})
      case Some(e) => Rollback(s, i, e)
      case None =>
        var stored := Resolved(s.bulkIdMap, f.refs);
        s.(linked := Extend(s.linked, i, stored),
           rewritten := Extend(s.rewritten, i, stored),
           results := if f.isGroup || s.results[i].None? then s.results
                      else s.results[i := Some(s.results[i].value.(version := Some(store.version(i))))])
  }

  // ----- what a run keeps

  /** The references of POST i that the server promises to turn into identifiers. */
  ghost predicate Wanted(calls: seq<Call>, producers: map<string, nat>, i: nat, r: string)
    requires i < |calls| && calls[i].Call?
  {
    r in calls[i].deferrable && r != "" && r != calls[i].bulkId && r in producers
  }

  /** Records, results and the rolled-back bulkIds agree. */
  ghost predicate Records(calls: seq<Call>, s: State) {
    && |s.results| == |calls|
    && s.linked.Keys <= s.created.Keys && s.rewritten.Keys <= s.created.Keys
    && (forall i | i in s.created :: RecordOk(calls, s, i))
    && (forall b :: b in s.rolledBackIds <==> exists i :: RolledBackAs(s, i, b))
  }

  ghost predicate RolledBackAs(s: State, i: nat, b: string) {
    i in s.created && s.created[i].rolledBack && s.created[i].bulkId == b
  }

  /** A survivor's result is a 201 with its location; a rolled-back one's is an error with neither location nor version. */
  ghost predicate RecordOk(calls: seq<Call>, s: State, i: nat)
    requires i in s.created && |s.results| == |calls|
  {
    var rec := s.created[i];
    && i < |calls| && calls[i].Call?
    && rec.bulkId == calls[i].bulkId && rec.deps == calls[i].DataRefs() && rec.isGroup == calls[i].isGroup
    && s.results[i].Some?
    && var res := s.results[i].value;
    if rec.rolledBack then res.status >= 400 && res.location == None && res.version == None && i !in s.linked
    else res.status == 201 && res.location == Some(OfCreated(rec.id)) && res.version.Some?
  }

  ghost predicate Surviving(s: State, i: nat) {
    i in s.created && !s.created[i].rolledBack
  }

  ghost predicate SurvivingAs(s: State, i: nat, b: string, id: ResourceId) {
    Surviving(s, i) && s.created[i].bulkId == b && s.created[i].id == id
  }

  /** bulkIdMap binds exactly the bulkIds of the surviving resources, to their identifiers. */
  ghost predicate Bound(s: State) {
    && (forall b | b in s.bulkIdMap :: exists i :: SurvivingAs(s, i, b, s.bulkIdMap[b]))
    && (forall i | Surviving(s, i) :: s.created[i].bulkId in s.bulkIdMap && s.bulkIdMap[s.created[i].bulkId] == s.created[i].id)
  }

  ghost predicate Differ(a: CreatedPost, b: CreatedPost) {
    a.bulkId != b.bulkId && a.id != b.id
  }

  ghost predicate UniqueRecords(s: State) {
    forall i, j {:trigger Differ(s.created[i], s.created[j])} |
      i in s.created && j in s.created && i != j :: Differ(s.created[i], s.created[j])
  }

  /** The row of a resource that was not rolled back is there until a DELETE erases it. */
  ghost predicate Rows(s: State) {
    forall i | Surviving(s, i) :: i in s.linked <==> s.created[i].id !in s.erased
  }

  ghost predicate Stored(s: State, i: nat, id: ResourceId) {
    i in s.linked && id in s.linked[i]
  }

  /**
   What the later operations of the request leave of an identifier stored in resource i: the
   resource has not been deleted, nor, if it is a group, the member named, and the last PUT
   or PATCH of the resource, if any, has left it in place.
   */
  ghost predicate LeftAlone(s: State, i: nat, id: ResourceId)
    requires i in s.created
  {
    && s.created[i].id !in s.erased
    && (s.created[i].isGroup ==> id !in s.erased)
    && (i in s.rewritten ==> id in s.rewritten[i])
  }

  /** Reference r of resource i stands for an identifier, which is stored exactly if it was left alone. */
  ghost predicate Honoured(s: State, i: nat, r: string)
    requires i in s.created
  {
    r in s.bulkIdMap && (Stored(s, i, s.bulkIdMap[r]) <==> LeftAlone(s, i, s.bulkIdMap[r]))
  }

  ghost predicate Pending(fixups: seq<Fixup>, i: nat, r: string) {
    exists k :: 0 <= k < |fixups| && fixups[k].origIdx == i && r in fixups[k].refs
  }

  /** Every wanted reference of a survivor has been stored or still waits in one of the fixups. */
  ghost predicate References(calls: seq<Call>, producers: map<string, nat>, s: State, fixups: seq<Fixup>) {
    forall i: nat, r | Surviving(s, i) && i < |calls| && calls[i].Call? && Wanted(calls, producers, i, r) ::
      Honoured(s, i, r) || Pending(fixups, i, r)
  }

  /** The same while resources are being rolled back: a reference may name one that is gone. */
  ghost predicate ReferencesOrGone(calls: seq<Call>, producers: map<string, nat>, s: State, fixups: seq<Fixup>) {
    forall i: nat, r | Surviving(s, i) && i < |calls| && calls[i].Call? && Wanted(calls, producers, i, r) ::
      Honoured(s, i, r) || Pending(fixups, i, r) || r in s.rolledBackIds
  }

  // ----- counting errors

  lemma {:induction false} CountErrorsUpdate(results: seq<Option<Result>>, i: nat, r: Option<Result>)
    requires i < |results|
    ensures CountErrors(results[i := r]) + (if IsError(results[i]) then 1 else 0)
         == CountErrors(results) + if IsError(r) then 1 else 0
  {
    var n := |results| - 1;
    if i < n {
      assert results[i := r][..n] == results[..n][i := r];
      CountErrorsUpdate(results[..n], i, r);
    } else {
      assert results[i := r][..n] == results[..n];
    }
  }

  lemma RollbackCountsOnce(calls: seq<Call>, s: State, i: nat, status: ErrorStatus)
    requires Records(calls, s) && i in s.created
    ensures s.created[i].rolledBack ==> Rollback(s, i, status) == s
    ensures CountErrors(Rollback(s, i, status).results)
         == CountErrors(s.results) + if s.created[i].rolledBack then 0 else 1
  {
    assert RecordOk(calls, s, i);
    if !s.created[i].rolledBack {
      CountErrorsUpdate(s.results, i, Some(Result(status, None, None)));
    }
  }

  // ----- rolling back keeps

  lemma RollbackKeepsRecords(calls: seq<Call>, s: State, i: nat, status: ErrorStatus)
    requires Records(calls, s) && i in s.created
    ensures i < |s.results|
    ensures Records(calls, Rollback(s, i, status))
  {
    assert RecordOk(calls, s, i);
    var t := Rollback(s, i, status);
    forall j | j in t.created
      ensures RecordOk(calls, t, j)
    {
      assert RecordOk(calls, s, j);
    }
    if !s.created[i].rolledBack {
      assert RolledBackAs(t, i, s.created[i].bulkId);
      forall b | b in s.rolledBackIds
        ensures exists j :: RolledBackAs(t, j, b)
      {
        var j :| RolledBackAs(s, j, b);
        assert RolledBackAs(t, j, b);
      }
      forall j, b | RolledBackAs(t, j, b)
        ensures b in t.rolledBackIds
      {
        assert j == i || RolledBackAs(s, j, b);
      }
    }
  }

  lemma RollbackKeepsUnique(s: State, i: nat, status: ErrorStatus)
    requires i in s.created && i < |s.results| && s.linked.Keys <= s.created.Keys && UniqueRecords(s)
    ensures UniqueRecords(Rollback(s, i, status))
  {
    var t := Rollback(s, i, status);
    forall j, k | j in t.created && k in t.created && j != k
      ensures Differ(t.created[j], t.created[k])
    {
      assert Differ(s.created[j], s.created[k]);
    }
  }

  lemma RollbackKeepsBound(s: State, i: nat, status: ErrorStatus)
    requires i in s.created && i < |s.results| && s.linked.Keys <= s.created.Keys
    requires Bound(s) && UniqueRecords(s) && Rows(s)
    ensures Bound(Rollback(s, i, status)) && Rows(Rollback(s, i, status))
    ensures Rollback(s, i, status).bulkIdMap == if s.created[i].rolledBack then s.bulkIdMap else s.bulkIdMap - {s.created[i].bulkId}
  {
    var t := Rollback(s, i, status);
    if !s.created[i].rolledBack {
      forall b | b in t.bulkIdMap
        ensures exists j :: SurvivingAs(t, j, b, t.bulkIdMap[b])
      {
        var j :| SurvivingAs(s, j, b, s.bulkIdMap[b]);
        assert SurvivingAs(t, j, b, t.bulkIdMap[b]);
      }
      forall j | Surviving(t, j)
        ensures t.created[j].bulkId in t.bulkIdMap && t.bulkIdMap[t.created[j].bulkId] == t.created[j].id
      {
        assert Surviving(s, j);
        assert Differ(s.created[j], s.created[i]);
      }
      forall j | Surviving(t, j)
        ensures j in t.linked <==> t.created[j].id !in t.erased
      {
        assert Surviving(s, j);
        assert Differ(s.created[j], s.created[i]);
      }
    }
  }

  lemma RollbackKeepsHonoured(s: State, i: nat, status: ErrorStatus, j: nat, r: string)
    requires i in s.created && i < |s.results| && s.linked.Keys <= s.created.Keys && !s.created[i].rolledBack
    requires Bound(s) && UniqueRecords(s)
    requires j in s.created && j != i && Honoured(s, j, r) && r != s.created[i].bulkId
    ensures Honoured(Rollback(s, i, status), j, r)
  {
    var k :| SurvivingAs(s, k, r, s.bulkIdMap[r]);
    assert Differ(s.created[k], s.created[i]);
    assert Differ(s.created[j], s.created[i]);
  }

  lemma RollbackKeepsReferences(calls: seq<Call>, producers: map<string, nat>, s: State, fixups: seq<Fixup>, i: nat, status: ErrorStatus)
    requires i in s.created && i < |s.results| && s.linked.Keys <= s.created.Keys
    requires Bound(s) && UniqueRecords(s)
    requires ReferencesOrGone(calls, producers, s, fixups)
    ensures ReferencesOrGone(calls, producers, Rollback(s, i, status), fixups)
  {
    var t := Rollback(s, i, status);
    if !s.created[i].rolledBack {
      forall j: nat, r | Surviving(t, j) && j < |calls| && calls[j].Call? && Wanted(calls, producers, j, r)
        ensures Honoured(t, j, r) || Pending(fixups, j, r) || r in t.rolledBackIds
      {
        assert j != i && Surviving(s, j);
        if Honoured(s, j, r) && r != s.created[i].bulkId {
          RollbackKeepsHonoured(s, i, status, j, r);
        }
      }
    }
  }

  // ----- creating keeps

  lemma CreateKeepsRecords(calls: seq<Call>, producers: map<string, nat>, s: State, i: nat, id: ResourceId, version: nat)
    requires Records(calls, s) && i < |calls| && calls[i].Call? && i !in s.created
    ensures Records(calls, Create(s, calls[i], producers, i, id, version))
  {
    var t := Create(s, calls[i], producers, i, id, version);
    forall j | j in t.created
      ensures RecordOk(calls, t, j)
    {
      if j != i {
        assert RecordOk(calls, s, j);
      }
    }
    forall b
      ensures b in t.rolledBackIds <==> exists j :: RolledBackAs(t, j, b)
    {
      forall j
        ensures RolledBackAs(t, j, b) <==> RolledBackAs(s, j, b)
      {
      }
    }
  }

  lemma CreateKeepsBound(calls: seq<Call>, producers: map<string, nat>, s: State, i: nat, id: ResourceId, version: nat)
    requires i < |calls| == |s.results| && calls[i].Call? && i !in s.created
    requires Bound(s) && Rows(s) && UniqueRecords(Create(s, calls[i], producers, i, id, version))
    ensures Bound(Create(s, calls[i], producers, i, id, version)) && Rows(Create(s, calls[i], producers, i, id, version))
    ensures calls[i].bulkId !in s.bulkIdMap
    ensures Create(s, calls[i], producers, i, id, version).bulkIdMap == s.bulkIdMap[calls[i].bulkId := id]
  {
    var t := Create(s, calls[i], producers, i, id, version);
    forall j | j in s.created
      ensures t.created[j] == s.created[j] && s.created[j].bulkId != calls[i].bulkId
    {
      assert Differ(t.created[j], t.created[i]);
    }
    assert SurvivingAs(t, i, calls[i].bulkId, id);
    forall b | b in t.bulkIdMap && b != calls[i].bulkId
      ensures exists j :: SurvivingAs(t, j, b, t.bulkIdMap[b])
    {
      var j :| SurvivingAs(s, j, b, s.bulkIdMap[b]);
      assert SurvivingAs(t, j, b, t.bulkIdMap[b]);
    }
    forall j | Surviving(t, j)
      ensures t.created[j].bulkId in t.bulkIdMap && t.bulkIdMap[t.created[j].bulkId] == t.created[j].id
    {
      assert j == i || Surviving(s, j);
    }
    forall j | Surviving(t, j)
      ensures j in t.linked <==> t.created[j].id !in t.erased
    {
      assert j == i || (Surviving(s, j) && Differ(t.created[j], t.created[i]));
    }
  }

  /** The resource a member reference stands for is still there when the group is created. */
  predicate MembersThere(bulkIdMap: map<string, ResourceId>, erased: set<ResourceId>, op: Call)
    requires op.Call?
  {
    op.isGroup ==> Resolved(bulkIdMap, op.deferrable) !! erased
  }

  lemma CreateKeepsReferences(calls: seq<Call>, producers: map<string, nat>, s: State, i: nat, id: ResourceId, version: nat)
    requires Records(calls, s) && i < |calls| && calls[i].Call? && i !in s.created
    requires Bound(s) && UniqueRecords(Create(s, calls[i], producers, i, id, version)) && calls[i].bulkId !in s.bulkIdMap
    requires MembersThere(s.bulkIdMap, s.erased, calls[i]) && References(calls, producers, s, s.fixups)
    ensures References(calls, producers, Create(s, calls[i], producers, i, id, version), Create(s, calls[i], producers, i, id, version).fixups)
  {
    var t := Create(s, calls[i], producers, i, id, version);
    var deferred := DeferredRefs(calls[i], producers, s.bulkIdMap, calls[i].deferrable);
    forall j: nat, r | Surviving(t, j) && j < |calls| && calls[j].Call? && Wanted(calls, producers, j, r)
      ensures Honoured(t, j, r) || Pending(t.fixups, j, r)
    {
      if j == i {
        if r in s.bulkIdMap {
          assert s.bulkIdMap[r] in Resolved(s.bulkIdMap, calls[i].deferrable);
          assert Stored(t, i, t.bulkIdMap[r]) && LeftAlone(t, i, t.bulkIdMap[r]);
        } else {
          assert r in deferred;
          assert t.fixups[|s.fixups|] == Fixup(i, calls[i].isGroup, deferred);
        }
      } else {
        assert Surviving(s, j);
        if Honoured(s, j, r) {
          CreateKeepsHonoured(calls, producers, s, i, id, version, j, r);
        } else {
          var k :| 0 <= k < |s.fixups| && s.fixups[k].origIdx == j && r in s.fixups[k].refs;
          assert t.fixups[k] == s.fixups[k];
        }
      }
    }
  }

  lemma CreateKeepsHonoured(calls: seq<Call>, producers: map<string, nat>, s: State, i: nat, id: ResourceId, version: nat, j: nat, r: string)
    requires i < |calls| == |s.results| && calls[i].Call? && i !in s.created
    requires Bound(s) && UniqueRecords(Create(s, calls[i], producers, i, id, version)) && calls[i].bulkId !in s.bulkIdMap
    requires j in s.created && Honoured(s, j, r)
    ensures Honoured(Create(s, calls[i], producers, i, id, version), j, r)
  {
    var t := Create(s, calls[i], producers, i, id, version);
    var k :| SurvivingAs(s, k, r, s.bulkIdMap[r]);
    assert Differ(t.created[k], t.created[i]);
    assert Differ(t.created[j], t.created[i]);
  }

  // ----- updating keeps

  lemma UpdateKeepsRecords(calls: seq<Call>, s: State, verb: Verb, i: nat, id: ResourceId, left: set<ResourceId>, result: Result)
    requires Records(calls, s) && i < |calls| && i !in s.created
    ensures Records(calls, Update(s, verb, i, id, left, result))
  {
    var t := Update(s, verb, i, id, left, result);
    forall j | j in t.created
      ensures RecordOk(calls, t, j)
    {
      assert RecordOk(calls, s, j);
    }
    forall j, b
      ensures RolledBackAs(t, j, b) <==> RolledBackAs(s, j, b)
    {
    }
  }

  /** An update binds and unbinds nothing, and a resource's row is gone exactly if it was deleted. */
  lemma UpdateKeepsBound(s: State, verb: Verb, i: nat, id: ResourceId, left: set<ResourceId>, result: Result)
    requires i < |s.results| && s.linked.Keys <= s.created.Keys && Bound(s) && Rows(s)
    ensures Bound(Update(s, verb, i, id, left, result)) && Rows(Update(s, verb, i, id, left, result))
    ensures Update(s, verb, i, id, left, result).bulkIdMap == s.bulkIdMap
  {
    var t := Update(s, verb, i, id, left, result);
    forall b | b in t.bulkIdMap
      ensures exists j :: SurvivingAs(t, j, b, t.bulkIdMap[b])
    {
      var j :| SurvivingAs(s, j, b, s.bulkIdMap[b]);
      assert SurvivingAs(t, j, b, t.bulkIdMap[b]);
    }
    assert forall j :: Surviving(t, j) <==> Surviving(s, j);
  }

  /** After any update each reference is stored exactly if that update and those before left it alone. */
  lemma UpdateKeepsReferences(calls: seq<Call>, producers: map<string, nat>, s: State, verb: Verb, i: nat, id: ResourceId,
                              left: set<ResourceId>, result: Result)
    requires i < |s.results| && s.linked.Keys <= s.created.Keys && Rows(s) && id !in s.erased
    requires References(calls, producers, s, s.fixups)
    ensures References(calls, producers, Update(s, verb, i, id, left, result), s.fixups)
  {
    var t := Update(s, verb, i, id, left, result);
    forall j: nat, r | Surviving(t, j) && j < |calls| && calls[j].Call? && Wanted(calls, producers, j, r)
      ensures Honoured(t, j, r) || Pending(s.fixups, j, r)
    {
      assert Surviving(s, j);
      if Honoured(s, j, r) {
        assert Stored(t, j, t.bulkIdMap[r]) <==> LeftAlone(t, j, t.bulkIdMap[r]);
      }
    }
  }

  // ----- applying a fixup keeps

  lemma ApplyKeepsRecords(calls: seq<Call>, s: State, store: Store, f: Fixup)
    requires Records(calls, s) && f.origIdx in s.created
    ensures f.origIdx < |s.results|
    ensures Records(calls, ApplyFixup(s, store, f))
  {
    var i := f.origIdx;
    assert RecordOk(calls, s, i);
    var t := ApplyFixup(s, store, f);
    if !s.created[i].rolledBack {
      match FixError(s, store, f, 0, {})
      case Some(e) => RollbackKeepsRecords(calls, s, i, e);
      case None =>
        forall j | j in t.created
          ensures RecordOk(calls, t, j)
        {
          assert RecordOk(calls, s, j);
        }
        forall j, b
          ensures RolledBackAs(t, j, b) <==> RolledBackAs(s, j, b)
        {
        }
    }
  }

  lemma ApplyKeepsBound(s: State, store: Store, f: Fixup)
    requires f.origIdx in s.created && f.origIdx < |s.results| && s.linked.Keys <= s.created.Keys
    requires Bound(s) && UniqueRecords(s) && Rows(s)
    ensures Bound(ApplyFixup(s, store, f)) && UniqueRecords(ApplyFixup(s, store, f)) && Rows(ApplyFixup(s, store, f))
  {
    var i, t := f.origIdx, ApplyFixup(s, store, f);
    if !s.created[i].rolledBack {
      match FixError(s, store, f, 0, {})
      case Some(e) =>
        RollbackKeepsBound(s, i, e);
        RollbackKeepsUnique(s, i, e);
      case None =>
        forall b | b in t.bulkIdMap
          ensures exists j :: SurvivingAs(t, j, b, t.bulkIdMap[b])
        {
          var j :| SurvivingAs(s, j, b, s.bulkIdMap[b]);
          assert SurvivingAs(t, j, b, t.bulkIdMap[b]);
        }
        forall j | Surviving(t, j)
          ensures t.created[j].bulkId in t.bulkIdMap && t.bulkIdMap[t.created[j].bulkId] == t.created[j].id
        {
          assert Surviving(s, j);
        }
        assert forall j :: Surviving(t, j) <==> Surviving(s, j);
    }
  }

  /** After a fixup is applied its references are stored, or its resource is gone. */
  lemma ApplyKeepsReferences(calls: seq<Call>, producers: map<string, nat>, s: State, store: Store, f: Fixup, rest: seq<Fixup>)
    requires f.origIdx in s.created && f.origIdx < |s.results| && s.linked.Keys <= s.created.Keys
    requires Bound(s) && UniqueRecords(s) && Rows(s)
    requires f.isGroup == s.created[f.origIdx].isGroup
    requires ReferencesOrGone(calls, producers, s, [f] + rest)
    ensures ReferencesOrGone(calls, producers, ApplyFixup(s, store, f), rest)
  {
    var i, t := f.origIdx, ApplyFixup(s, store, f);
    var error := FixError(s, store, f, 0, {});
    var failed := !s.created[i].rolledBack && error.Some?;
    if failed {
      RollbackKeepsReferences(calls, producers, s, [f] + rest, i, error.value);
    }
    forall j: nat, r | Surviving(t, j) && j < |calls| && calls[j].Call? && Wanted(calls, producers, j, r)
      ensures Honoured(t, j, r) || Pending(rest, j, r) || r in t.rolledBackIds
    {
      if j == i {
        assert !failed && Surviving(s, i);
        ApplyHonours(s, store, f, r);
        assert r !in f.refs ==> (Pending([f] + rest, i, r) ==> Pending(rest, i, r));
      } else {
        assert Surviving(s, j);
        if !Pending([f] + rest, j, r) && !failed && Honoured(s, j, r) {
          assert Honoured(t, j, r);
        }
      }
    }
  }

  /** A fixup that does not fail stores every reference it carries, as the identifier bound to it; the others stay. */
  lemma ApplyHonours(s: State, store: Store, f: Fixup, r: string)
    requires f.origIdx in s.created && f.origIdx < |s.results| && s.linked.Keys <= s.created.Keys
    requires Surviving(s, f.origIdx) && Rows(s) && f.isGroup == s.created[f.origIdx].isGroup
    requires FixError(s, store, f, 0, {}).None?
    ensures var t := ApplyFixup(s, store, f);
            && (r in f.refs ==> r in t.bulkIdMap && (f.origIdx in s.linked ==> Stored(t, f.origIdx, t.bulkIdMap[r])))
            && (r in f.refs || Honoured(s, f.origIdx, r) ==> Honoured(t, f.origIdx, r))
  {
    var i, t := f.origIdx, ApplyFixup(s, store, f);
    if r in f.refs {
      var k :| 0 <= k < |f.refs| && f.refs[k] == r;
      assert f.refs[k] in s.bulkIdMap;
      assert s.bulkIdMap[r] in Resolved(s.bulkIdMap, f.refs);
    }
    if r in s.bulkIdMap && s.bulkIdMap[r] in Resolved(s.bulkIdMap, f.refs) {
      var r' :| r' in f.refs && r' in s.bulkIdMap && s.bulkIdMap[r'] == s.bulkIdMap[r];
      var k :| 0 <= k < |f.refs| && f.refs[k] == r';
      assert f.isGroup ==> s.bulkIdMap[f.refs[k]] !in s.erased;
    }
  }
}
