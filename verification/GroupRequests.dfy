/**
 Requests on users and groups: PATCH operations on a loaded group (section 3.5.2 of RFC 7644),
 replacement, creation and deletion, and what every run of them keeps.
 */
module GroupRequests {
  import opened Text
  import opened GroupMembers

  /** A group loaded in a transaction: the rows written so far and the group in memory. */
  datatype Draft = Draft(store: Store, id: nat, workspace: nat, displayName: string, externalId: Option<string>, members: seq<Membership>)

  /** The operations a request's path and value come down to. */
  datatype Op =
    | Add(ms: seq<Member>)
    | ReplaceMembers(ms: seq<Member>)
    | RemoveAll
    | RemoveMembers(ms: seq<Member>)
    | RemoveMember(value: Option<nat>)                        // None: the filter names no resource
    | AddType(value: Option<nat>, mtype: Option<string>)      // the type "User" or "Group", None when it is neither
    | SetName(name: Option<string>)                           // None: missing or empty
    | SetExternal(external: Option<Option<string>>)           // None: not a text
    | Keep
    | Reject

  // ----- operations

  /** No member listed that has a type is given another one. */
  predicate TypesKept(members: seq<Membership>, ms: seq<Member>) {
    forall i, j | 0 <= i < |members| && 0 <= j < |ms| ::
      ms[j].target == Named(members[i].value) && ms[j].mtype.Typed? && members[i].mtype.Some? && members[i].mtype.value != "" ==>
        EqualFold(members[i].mtype.value, ms[j].mtype.t)
  }

  predicate NameTaken(s: Store, workspace: nat, name: string, id: nat) {
    exists g :: g in s.groups && g != id && s.groups[g].workspace == workspace && s.groups[g].displayName == name
  }

  function WithRows(d: Draft, s: Store): Draft {
    d.(store := s, members := RowsOf(s.rows, d.id))
  }

  /** Only what is new is added; without anything new the list in memory stays as it is. */
  function AddMissing(d: Draft, ms: seq<Member>): Option<Draft> {
    match AddMembers(d.store, d.id, d.workspace, ms, Values(d.members), true)
    case None => None
    case Some((s, known)) => Some(if known == Values(d.members) then d.(store := s) else WithRows(d, s))
  }

  function ReplaceAll(d: Draft, ms: seq<Member>): Option<Draft> {
    if !TypesKept(d.members, ms) then None
    else
      match AddMembers(Delete(d.store, NotIn(d.id)), d.id, d.workspace, ms, {}, false)
      case None => None
      case Some((s, _)) => Some(WithRows(d, s))
  }

  function RemoveOne(d: Draft, value: nat): Draft {
    d.(store := Delete(d.store, NotMember(d.id, value)), members := Filter(d.members, NotValue(value)))
  }

  function RemoveListed(d: Draft, ms: seq<Member>): Option<Draft> {
    if ms == [] then Some(d)
    else
      var m := ms[|ms| - 1];
      match RemoveListed(d, ms[..|ms| - 1])
      case None => None
      case Some(e) => if m.conflict then None else if m.target.Named? then Some(RemoveOne(e, m.target.id)) else Some(e)
  }

  function SetType(d: Draft, value: nat, t: string): Option<Draft> {
    var i := FindMember(d.members, value);
    if i == |d.members| then None
    else if !Blank(d.members[i].mtype) then
      if EqualFold(TrimSpace(d.members[i].mtype.value), t) then Some(d) else None
    else if !HasType(d.store, value, d.workspace, t) then None
    else
      var m := d.members[i];
      Some(d.(store := d.store.(rows := Retype(d.store.rows, m.id, d.workspace, t)),
              members := d.members[i := m.(mtype := Some(t))]))
  }

  function Apply(d: Draft, op: Op): Option<Draft> {
    match op
    case Add(ms) => AddMissing(d, ms)
    case ReplaceMembers(ms) => ReplaceAll(d, ms)
    case RemoveAll => Some(d.(store := Delete(d.store, NotIn(d.id)), members := []))
    case RemoveMembers(ms) => RemoveListed(d, ms)
    case RemoveMember(value) => Some(if value.None? then d else RemoveOne(d, value.value))
    case AddType(value, t) => if value.None? || t.None? then None else SetType(d, value.value, t.value)
    case SetName(name) =>
      if name.None? || (name.value != d.displayName && NameTaken(d.store, d.workspace, name.value, d.id)) then None
      else Some(d.(displayName := name.value))
    case SetExternal(external) => if external.None? then None else Some(d.(externalId := external.value))
    case Keep => Some(d)
    case Reject => None
  }

  function ApplyAll(d: Draft, ops: seq<Op>): Option<Draft> {
    if ops == [] then Some(d)
    else
      match ApplyAll(d, ops[..|ops| - 1])
      case None => None
      case Some(e) => Apply(e, ops[|ops| - 1])
  }

  predicate GoodType(op: Op) {
    op.AddType? && op.mtype.Some? ==> op.mtype.value == "User" || op.mtype.value == "Group"
  }

  // ----- the list in memory mirrors the rows

  ghost predicate Mirrors(d: Draft) {
    && Good(d.store) && d.id in d.store.groups && d.store.groups[d.id].workspace == d.workspace
    && d.members == RowsOf(d.store.rows, d.id)
  }

  /** The rest of the store is as it was. */
  ghost predicate SameElsewhere(d: Draft, e: Draft) {
    && e.id == d.id && e.workspace == d.workspace
    && e.store.users == d.store.users && e.store.groups == d.store.groups
    && forall g | g != d.id :: RowsOf(e.store.rows, g) == RowsOf(d.store.rows, g)
  }

  lemma RemoveOneMirrors(d: Draft, value: nat)
    requires Mirrors(d)
    ensures Mirrors(RemoveOne(d, value)) && SameElsewhere(d, RemoveOne(d, value))
    ensures value !in Values(RemoveOne(d, value).members)
  {
    DeleteIsGood(d.store, NotMember(d.id, value));
    RemovalMirrors(d.store.rows, d.id, value);
    forall m | m in RemoveOne(d, value).members ensures m.value != value {
      FilterMembers(d.members, NotValue(value), m);
    }
  }

  lemma {:induction false} RemoveListedMirrors(d: Draft, ms: seq<Member>)
    requires Mirrors(d) && RemoveListed(d, ms).Some?
    ensures Mirrors(RemoveListed(d, ms).value) && SameElsewhere(d, RemoveListed(d, ms).value)
    ensures RemoveListed(d, ms).value.displayName == d.displayName && RemoveListed(d, ms).value.externalId == d.externalId
  {
    if ms != [] {
      RemoveListedMirrors(d, ms[..|ms| - 1]);
      var m := ms[|ms| - 1];
      if m.target.Named? {
        RemoveOneMirrors(RemoveListed(d, ms[..|ms| - 1]).value, m.target.id);
      }
    }
  }

  lemma AddMissingMirrors(d: Draft, ms: seq<Member>)
    requires Mirrors(d) && AddMissing(d, ms).Some?
    ensures Mirrors(AddMissing(d, ms).value) && SameElsewhere(d, AddMissing(d, ms).value)
    ensures d.members <= AddMissing(d, ms).value.members
  {
    AddMembersIsGood(d.store, d.id, d.workspace, ms, Values(d.members), true);
  }

  lemma ReplaceAllMirrors(d: Draft, ms: seq<Member>)
    requires Mirrors(d) && ReplaceAll(d, ms).Some?
    ensures Mirrors(ReplaceAll(d, ms).value) && SameElsewhere(d, ReplaceAll(d, ms).value)
    ensures Values(ReplaceAll(d, ms).value.members) == NamedIn(ms)
  {
    DeleteIsGood(d.store, NotIn(d.id));
    NoRows(d.store.rows, d.id);
    AddMembersIsGood(Delete(d.store, NotIn(d.id)), d.id, d.workspace, ms, {}, false);
    NamedAreKnown(Delete(d.store, NotIn(d.id)), d.id, d.workspace, ms, {}, false);
  }

  lemma SetTypeMirrors(d: Draft, value: nat, t: string)
    requires Mirrors(d) && (t == "User" || t == "Group") && SetType(d, value, t).Some?
    ensures Mirrors(SetType(d, value, t).value) && SameElsewhere(d, SetType(d, value, t).value)
  {
    var i := FindMember(d.members, value);
    if Blank(d.members[i].mtype) {
      var m := d.members[i];
      RetypeIsGood(d.store, d.id, d.workspace, i, t);
    }
  }

  /** After each accepted operation the list in memory is the list of stored rows. */
  lemma ApplyMirrors(d: Draft, op: Op)
    requires Mirrors(d) && GoodType(op) && Apply(d, op).Some?
    ensures Mirrors(Apply(d, op).value) && SameElsewhere(d, Apply(d, op).value)
  {
    match op
    case Add(ms) => AddMissingMirrors(d, ms);
    case ReplaceMembers(ms) => ReplaceAllMirrors(d, ms);
    case RemoveAll =>
      DeleteIsGood(d.store, NotIn(d.id));
      NoRows(d.store.rows, d.id);
    case RemoveMembers(ms) => RemoveListedMirrors(d, ms);
    case RemoveMember(value) =>
      if value.Some? {
        RemoveOneMirrors(d, value.value);
      }
    case AddType(value, t) => SetTypeMirrors(d, value.value, t.value);
    case _ =>
  }

  lemma {:induction false} ApplyAllMirrors(d: Draft, ops: seq<Op>)
    requires Mirrors(d) && (forall n | 0 <= n < |ops| :: GoodType(ops[n])) && ApplyAll(d, ops).Some?
    ensures Mirrors(ApplyAll(d, ops).value) && SameElsewhere(d, ApplyAll(d, ops).value)
  {
    if ops != [] {
      ApplyAllMirrors(d, ops[..|ops| - 1]);
      ApplyMirrors(ApplyAll(d, ops[..|ops| - 1]).value, ops[|ops| - 1]);
    }
  }

  /** No member occurs twice in the list. */
  lemma NoMemberTwice(d: Draft)
    requires Mirrors(d)
    ensures forall i, j | 0 <= i < j < |d.members| :: d.members[i].value != d.members[j].value
  {
    FilterKeepsApart(d.store.rows, InGroup(d.id));
    forall i, j | 0 <= i < j < |d.members| ensures d.members[i].value != d.members[j].value {
      FilterMembers(d.store.rows, InGroup(d.id), d.members[i]);
      FilterMembers(d.store.rows, InGroup(d.id), d.members[j]);
      assert Apart(d.members[i], d.members[j]);
    }
  }

  // ----- whole requests on groups

  /** What a member list is compared by: values with types, whatever their case and order. */
  function MemberKey(m: Membership): (nat, string) {
    (m.value, if m.mtype.None? then "" else ToLower(m.mtype.value))
  }

  function MemberKeys(ms: seq<Membership>): seq<(nat, string)> {
    seq(|ms|, i requires 0 <= i < |ms| => MemberKey(ms[i]))
  }

  predicate SameMembers(a: seq<Membership>, b: seq<Membership>) {
    multiset(MemberKeys(a)) == multiset(MemberKeys(b))
  }

  predicate Found(s: Store, id: nat, workspace: nat, ifMatch: Option<nat>) {
    && id in s.groups && s.groups[id].workspace == workspace
    && (ifMatch.Some? ==> ifMatch.value == s.groups[id].version)
  }

  function Load(s: Store, id: nat): Draft
    requires id in s.groups
  {
    var g := s.groups[id];
    Draft(s, id, g.workspace, g.displayName, g.externalId, RowsOf(s.rows, id))
  }

  /** The group is written, under a new version, only if something a client can see has changed. */
  predicate Changed(before: Draft, after: Draft) {
    || after.displayName != before.displayName || after.externalId != before.externalId
    || !SameMembers(before.members, RowsOf(after.store.rows, after.id))
  }

  function Written(d: Draft): Store
    requires d.id in d.store.groups
  {
    var version := d.store.groups[d.id].version + 1;
    d.store.(groups := d.store.groups[d.id := Group(d.workspace, d.displayName, d.externalId, version)])
  }

  /** A PATCH request; None is an error, and then the transaction leaves no trace. */
  function PatchGroup(s: Store, id: nat, workspace: nat, ifMatch: Option<nat>, ops: seq<Op>): Option<Store> {
    if !Found(s, id, workspace, ifMatch) then None
    else
      match ApplyAll(Load(s, id), ops)
      case None => None
      case Some(d) =>
        if d.id !in d.store.groups then None
        else Some(if Changed(Load(s, id), d) then Written(d) else d.store)
  }

  function ReplaceGroup(s: Store, id: nat, workspace: nat, ifMatch: Option<nat>,
    name: Option<string>, external: Option<Option<string>>, ms: seq<Member>): Option<Store>
  {
    if !Found(s, id, workspace, ifMatch) || name.None? || external.None? then None
    else if name.value != s.groups[id].displayName && NameTaken(s, workspace, name.value, id) then None
    else
      match ReplaceAll(Load(s, id).(displayName := name.value, externalId := external.value), ms)
      case None => None
      case Some(d) => if d.id !in d.store.groups then None else Some(Written(d))
  }

  function CreateGroup(s: Store, workspace: nat, name: Option<string>, external: Option<Option<string>>, ms: seq<Member>): Option<Store> {
    if name.None? || external.None? || NameTaken(s, workspace, name.value, s.next) then None
    else
      var t := s.(groups := s.groups[s.next := Group(workspace, name.value, external.value, 0)], next := s.next + 1);
      match AddMembers(t, s.next, workspace, ms, {}, false)
      case None => None
      case Some((u, _)) => Some(u)
  }

  /** Rows in which the resource is a member go first, then a group's own rows, then the resource. */
  function DeleteGroup(s: Store, id: nat, workspace: nat): Store {
    var t := Delete(Delete(s, NotValue(id)), NotIn(id));
    if id in t.groups && t.groups[id].workspace == workspace then t.(groups := t.groups - {id}) else t
  }

  function DeleteUser(s: Store, id: nat, workspace: nat): Store {
    var t := Delete(s, NotValue(id));
    if id in t.users && t.users[id] == workspace then t.(users := t.users - {id}) else t
  }

  // ----- a successful PATCH

  /**
   Rows stay good, other groups are not touched, and the version rises by one exactly when the
   display name, the external id or the multiset of members with their types has changed.
   */
  lemma PatchKeepsGood(s: Store, id: nat, workspace: nat, ifMatch: Option<nat>, ops: seq<Op>)
    requires Good(s) && (forall n | 0 <= n < |ops| :: GoodType(ops[n])) && PatchGroup(s, id, workspace, ifMatch, ops).Some?
    ensures var t := PatchGroup(s, id, workspace, ifMatch, ops).value;
            && Good(t) && t.users == s.users && t.groups.Keys == s.groups.Keys
            && (forall g | g in s.groups && g != id :: t.groups[g] == s.groups[g] && RowsOf(t.rows, g) == RowsOf(s.rows, g))
            && (t.groups[id].version == s.groups[id].version + if SameGroup(s, t, id) then 0 else 1)
  {
    var d := Load(s, id);
    ApplyAllMirrors(d, ops);
  }

  predicate SameGroup(s: Store, t: Store, id: nat)
    requires id in s.groups && id in t.groups
  {
    && t.groups[id].displayName == s.groups[id].displayName && t.groups[id].externalId == s.groups[id].externalId
    && SameMembers(RowsOf(s.rows, id), RowsOf(t.rows, id))
  }

  // ----- every run of requests

  datatype Request =
    | CreateUser(workspace: nat)
    | RemoveUser(id: nat, workspace: nat, matches: bool)    // whether If-Match allows it
    | NewGroup(workspace: nat, name: Option<string>, external: Option<Option<string>>, ms: seq<Member>)
    | Patch(id: nat, workspace: nat, ifMatch: Option<nat>, ops: seq<Op>)
    | Replace(id: nat, workspace: nat, ifMatch: Option<nat>, name: Option<string>, external: Option<Option<string>>, ms: seq<Member>)
    | RemoveGroup(id: nat, workspace: nat, ifMatch: Option<nat>)
    | Rollback(id: nat, workspace: nat, isGroup: bool)      // of a resource a bulk request has created
    | Deferred(id: nat, workspace: nat, ms: seq<Member>)    // members that a created group was waiting for

  function Handle(s: Store, r: Request): Store {
    match r
    case CreateUser(workspace) => s.(users := s.users[s.next := workspace], next := s.next + 1)
    case RemoveUser(id, workspace, matches) =>
      if id in s.users && s.users[id] == workspace && matches then DeleteUser(s, id, workspace) else s
    case NewGroup(workspace, name, external, ms) => OrKeep(s, CreateGroup(s, workspace, name, external, ms))
    case Patch(id, workspace, ifMatch, ops) => OrKeep(s, PatchGroup(s, id, workspace, ifMatch, ops))
    case Replace(id, workspace, ifMatch, name, external, ms) => OrKeep(s, ReplaceGroup(s, id, workspace, ifMatch, name, external, ms))
    case RemoveGroup(id, workspace, ifMatch) => if Found(s, id, workspace, ifMatch) then DeleteGroup(s, id, workspace) else s
    case Rollback(id, workspace, isGroup) => if isGroup then DeleteGroup(s, id, workspace) else DeleteUser(s, id, workspace)
    case Deferred(id, workspace, ms) => InsertDeferred(s, id, workspace, ms, {})
  }

  /** No transaction: a member that cannot be added ends it, and those before stay. Only this list is searched for repetitions. */
  function InsertDeferred(s: Store, group: nat, workspace: nat, ms: seq<Member>, seen: set<nat>): Store
    decreases |ms|
  {
    if ms == [] then s
    else if ms[0].target.Named? && ms[0].target.id in seen then InsertDeferred(s, group, workspace, ms[1..], seen)
    else
      match AddMember(s, group, workspace, ms[0])
      case None => s
      case Some(t) => InsertDeferred(t, group, workspace, ms[1..], seen + {ms[0].target.id})
  }

  function OrKeep(s: Store, t: Option<Store>): Store {
    if t.Some? then t.value else s
  }

  predicate Typed(r: Request) {
    r.Patch? ==> forall n | 0 <= n < |r.ops| :: GoodType(r.ops[n])
  }

  /** Deferred members arrive while the group is there, and are not in it yet; nothing in their insertion checks this. */
  ghost predicate Timely(s: Store, r: Request) {
    r.Deferred? ==>
      && r.id in s.groups && s.groups[r.id].workspace == r.workspace
      && NamedIn(r.ms) !! Values(RowsOf(s.rows, r.id))
  }

  lemma {:induction false} InsertDeferredIsGood(s: Store, group: nat, workspace: nat, ms: seq<Member>, seen: set<nat>)
    requires Good(s) && group in s.groups && s.groups[group].workspace == workspace
    requires NamedIn(ms) * Values(RowsOf(s.rows, group)) <= seen
    ensures var t := InsertDeferred(s, group, workspace, ms, seen);
            && Good(t) && t.users == s.users && t.groups == s.groups
            && RowsOf(s.rows, group) <= RowsOf(t.rows, group)
            && Values(RowsOf(t.rows, group)) <= Values(RowsOf(s.rows, group)) + NamedIn(ms)
            && (forall g | g != group :: RowsOf(t.rows, g) == RowsOf(s.rows, g))
    decreases |ms|
  {
    if ms != [] {
      assert NamedIn(ms[1..]) <= NamedIn(ms);
      if ms[0].target.Named? && ms[0].target.id in seen {
        InsertDeferredIsGood(s, group, workspace, ms[1..], seen);
      } else if AddMember(s, group, workspace, ms[0]).Some? {
        var id := ms[0].target.id;
        assert id in NamedIn(ms);
        OneDeferredIsGood(s, group, workspace, ms[0]);
        InsertDeferredIsGood(AddMember(s, group, workspace, ms[0]).value, group, workspace, ms[1..], seen + {id});
      }
    }
  }

  lemma OneDeferredIsGood(s: Store, group: nat, workspace: nat, m: Member)
    requires Good(s) && group in s.groups && s.groups[group].workspace == workspace
    requires AddMember(s, group, workspace, m).Some? && m.target.id !in Values(RowsOf(s.rows, group))
    ensures var t := AddMember(s, group, workspace, m).value;
            && Good(t) && t.users == s.users && t.groups == s.groups
            && RowsOf(s.rows, group) <= RowsOf(t.rows, group)
            && Values(RowsOf(t.rows, group)) == Values(RowsOf(s.rows, group)) + {m.target.id}
            && (forall g | g != group :: RowsOf(t.rows, g) == RowsOf(s.rows, g))
  {
    var t := AddMember(s, group, workspace, m).value;
    AddMemberIsGood(s, group, workspace, m);
    assert t.rows[..|t.rows| - 1] == s.rows;
    assert t.rows[|s.rows|] in RowsOf(t.rows, group);
  }

  /** A deferred member that can be added does no harm exactly if it is timely. */
  lemma DeferredIsGoodExactlyIf(s: Store, group: nat, workspace: nat, m: Member)
    requires Good(s) && AddMember(s, group, workspace, m).Some?
    ensures Good(Handle(s, Deferred(group, workspace, [m]))) <==> Timely(s, Deferred(group, workspace, [m]))
  {
    var t, id := AddMember(s, group, workspace, m).value, m.target.id;
    assert [m][1..] == [] && NamedIn([m]) == {id} by {
      assert m in [m];
    }
    assert InsertDeferred(t, group, workspace, [m][1..], {} + {id}) == t;
    assert Handle(s, Deferred(group, workspace, [m])) == t;
    if id in Values(RowsOf(s.rows, group)) {
      var r :| r in RowsOf(s.rows, group) && r.value == id;
      FilterMembers(s.rows, InGroup(group), r);
      var i :| 0 <= i < |s.rows| && s.rows[i] == r;
      assert t.rows[i] == r && !Apart(t.rows[i], t.rows[|s.rows|]);
    } else if Timely(s, Deferred(group, workspace, [m])) {
      OneDeferredIsGood(s, group, workspace, m);
    } else {
      assert t.rows[|s.rows|] in t.rows && !RowOk(t, t.rows[|s.rows|]);
    }
  }

  lemma DeleteUserIsGood(s: Store, id: nat, workspace: nat)
    requires Good(s)
    ensures var t := DeleteUser(s, id, workspace);
            && Good(t) && (forall m :: m in t.rows <==> m in s.rows && m.value != id)
            && t.groups == s.groups && (forall u :: u in t.users <==> u in s.users && !(u == id && s.users[u] == workspace))
  {
    DeleteIsGood(s, NotValue(id));
    var t := DeleteUser(s, id, workspace);
    forall m ensures m in t.rows <==> m in s.rows && m.value != id {
      FilterMembers(s.rows, NotValue(id), m);
    }
    forall m | m in t.rows ensures RowOk(t, m) {
      assert RowOk(s, m);
    }
  }

  lemma DeleteGroupIsGood(s: Store, id: nat, workspace: nat)
    requires Good(s)
    ensures var t := DeleteGroup(s, id, workspace);
            && Good(t) && (forall m :: m in t.rows <==> m in s.rows && m.value != id && m.group != id)
            && t.users == s.users && (forall g :: g in t.groups <==> g in s.groups && !(g == id && s.groups[g].workspace == workspace))
  {
    var u := Delete(s, NotValue(id));
    DeleteIsGood(s, NotValue(id));
    DeleteIsGood(u, NotIn(id));
    var t := DeleteGroup(s, id, workspace);
    forall m ensures m in t.rows <==> m in s.rows && m.value != id && m.group != id {
      FilterMembers(s.rows, NotValue(id), m);
      FilterMembers(u.rows, NotIn(id), m);
    }
    forall m | m in t.rows ensures RowOk(t, m) {
      assert RowOk(s, m);
    }
  }

  lemma CreateGroupIsGood(s: Store, workspace: nat, name: Option<string>, external: Option<Option<string>>, ms: seq<Member>)
    requires Good(s) && CreateGroup(s, workspace, name, external, ms).Some?
    ensures Good(CreateGroup(s, workspace, name, external, ms).value)
    ensures CreateGroup(s, workspace, name, external, ms).value.users == s.users
    ensures CreateGroup(s, workspace, name, external, ms).value.groups.Keys == s.groups.Keys + {s.next}
    ensures s.next < CreateGroup(s, workspace, name, external, ms).value.next
    ensures Values(RowsOf(CreateGroup(s, workspace, name, external, ms).value.rows, s.next)) == NamedIn(ms)
  {
    var t := s.(groups := s.groups[s.next := Group(workspace, name.value, external.value, 0)], next := s.next + 1);
    forall m | m in t.rows ensures RowOk(t, m) && m.group != s.next {
      assert RowOk(s, m);
    }
    NoRowsOf(t.rows, s.next);
    AddMembersIsGood(t, s.next, workspace, ms, {}, false);
    NamedAreKnown(t, s.next, workspace, ms, {}, false);
  }

  lemma {:induction false} NoRowsOf(rows: seq<Membership>, group: nat)
    requires forall m | m in rows :: m.group != group
    ensures RowsOf(rows, group) == []
  {
    if rows != [] {
      NoRowsOf(rows[..|rows| - 1], group);
    }
  }

  lemma ReplaceGroupIsGood(s: Store, id: nat, workspace: nat, ifMatch: Option<nat>,
    name: Option<string>, external: Option<Option<string>>, ms: seq<Member>)
    requires Good(s) && ReplaceGroup(s, id, workspace, ifMatch, name, external, ms).Some?
    ensures var t := ReplaceGroup(s, id, workspace, ifMatch, name, external, ms).value;
            && Good(t) && t.users == s.users && t.groups.Keys == s.groups.Keys
            && t.groups[id] == Group(workspace, name.value, external.value, s.groups[id].version + 1)
            && Values(RowsOf(t.rows, id)) == NamedIn(ms)
            && (forall g | g in s.groups && g != id :: t.groups[g] == s.groups[g] && RowsOf(t.rows, g) == RowsOf(s.rows, g))
  {
    var d := Load(s, id).(displayName := name.value, externalId := external.value);
    ReplaceAllMirrors(d, ms);
  }

  /** No identifier is both a user's and a group's. */
  ghost predicate Separate(s: Store) {
    s.users.Keys !! s.groups.Keys
  }

  lemma HandleIsGood(s: Store, r: Request)
    requires Good(s) && Separate(s) && Typed(r) && Timely(s, r)
    ensures Good(Handle(s, r)) && Separate(Handle(s, r))
  {
    match r
    case CreateUser(workspace) =>
      forall m | m in s.rows ensures RowOk(Handle(s, r), m) {
        assert RowOk(s, m);
      }
    case RemoveUser(id, workspace, _) => DeleteUserIsGood(s, id, workspace);
    case NewGroup(workspace, name, external, ms) =>
      if CreateGroup(s, workspace, name, external, ms).Some? {
        CreateGroupIsGood(s, workspace, name, external, ms);
      }
    case Patch(id, workspace, ifMatch, ops) =>
      if PatchGroup(s, id, workspace, ifMatch, ops).Some? {
        PatchKeepsGood(s, id, workspace, ifMatch, ops);
      }
    case Replace(id, workspace, ifMatch, name, external, ms) =>
      if ReplaceGroup(s, id, workspace, ifMatch, name, external, ms).Some? {
        ReplaceGroupIsGood(s, id, workspace, ifMatch, name, external, ms);
      }
    case RemoveGroup(id, workspace, _) => DeleteGroupIsGood(s, id, workspace);
    case Rollback(id, workspace, isGroup) =>
      DeleteGroupIsGood(s, id, workspace);
      DeleteUserIsGood(s, id, workspace);
    case Deferred(id, workspace, ms) => InsertDeferredIsGood(s, id, workspace, ms, {});
  }

  function HandleAll(s: Store, requests: seq<Request>): Store {
    if requests == [] then s else Handle(HandleAll(s, requests[..|requests| - 1]), requests[|requests| - 1])
  }

  /** Every request meets a store in which it may come. */
  ghost predicate Runs(requests: seq<Request>) {
    forall n | 0 <= n < |requests| :: Typed(requests[n]) && Timely(HandleAll(Empty(), requests[..n]), requests[n])
  }

  function Empty(): Store {
    Store(map[], map[], [], 0)
  }

  /**
   Over every run from an empty store, each membership row names an existing group and an
   existing user or group of its workspace, of the type it says, and no group has a member twice.
   */
  lemma {:induction false} RunsKeepReferences(requests: seq<Request>)
    requires Runs(requests)
    ensures Good(HandleAll(Empty(), requests)) && Separate(HandleAll(Empty(), requests))
  {
    if requests != [] {
      var before := requests[..|requests| - 1];
      forall n | 0 <= n < |before|
        ensures Typed(before[n]) && Timely(HandleAll(Empty(), before[..n]), before[n])
      {
        assert before[..n] == requests[..n] && before[n] == requests[n];
      }
      RunsKeepReferences(before);
      HandleIsGood(HandleAll(Empty(), before), requests[|requests| - 1]);
    }
  }
}
