/**
 The group handler's steps on the stored rows and on the group object it has loaded, each
 proved to do what the specification of the operation says.
 */
module GroupEditor {
  import opened Text
  import opened GroupMembers
  import opened GroupRequests

  class Database {
    var store: Store

    constructor (store: Store)
      ensures this.store == store
    {
      this.store := store;
    }

    predicate HasUser(id: nat, workspace: nat)
      reads this
    {
      id in store.users && store.users[id] == workspace
    }

    predicate HasGroup(id: nat, workspace: nat)
      reads this
    {
      id in store.groups && store.groups[id].workspace == workspace
    }

    /** Checks the member, finds its type and inserts a row. */
    method AddMember(group: nat, workspace: nat, m: Member) returns (ok: bool)
      modifies this
      ensures match GroupMembers.AddMember(old(store), group, workspace, m)
              case None => !ok && store == old(store)
              case Some(s) => ok && store == s
    {
      if m.conflict || !m.target.Named? {
        return false;
      }
      var id, explicit := m.target.id, "";
      match m.mtype {
        case NoType =>
        case BadType => return false;
        case Typed(t) =>
          if !EqualFold(t, "User") && !EqualFold(t, "Group") {
            return false;
          }
          explicit := if EqualFold(t, "Group") then "Group" else "User";
      }
      var mtype := explicit;
      if explicit == "User" {
        if !HasUser(id, workspace) {
          return false;
        }
      } else if explicit == "Group" {
        if !HasGroup(id, workspace) {
          return false;
        }
      } else if HasUser(id, workspace) {
        mtype := "User";
      } else if HasGroup(id, workspace) {
        mtype := "Group";
      } else {
        return false;
      }
      var row := Membership(store.next, group, workspace, id, Some(mtype));
      store := store.(rows := store.rows + [row], next := store.next + 1);
      ok := true;
    }

    method DeleteRows(keep: Membership -> bool)
      modifies this
      ensures store == Delete(old(store), keep)
    {
      store := store.(rows := Filter(store.rows, keep));
    }
  }

  /** The list without one member, as the handler rebuilds it. */
  method WithoutMember(members: seq<Membership>, value: nat) returns (filtered: seq<Membership>)
    ensures filtered == Filter(members, NotValue(value))
  {
    filtered := [];
    for n := 0 to |members|
      invariant filtered == Filter(members[..n], NotValue(value))
    {
      assert members[..n + 1] == members[..n] + [members[n]];
      if members[n].value != value {
        filtered := filtered + [members[n]];
      }
    }
    assert members[..|members|] == members;
  }

  type Key = (nat, string)

  function Count(counts: map<Key, int>, k: Key): int {
    if k in counts then counts[k] else 0
  }

  ghost predicate Counts(counts: map<Key, int>, keys: multiset<Key>) {
    forall k :: Count(counts, k) == keys[k]
  }

  lemma KeysNext(s: seq<Membership>, n: nat)
    requires n < |s|
    ensures multiset(MemberKeys(s[..n + 1])) == multiset(MemberKeys(s[..n])) + multiset{MemberKey(s[n])}
  {
    assert MemberKeys(s[..n + 1]) == MemberKeys(s[..n]) + [MemberKey(s[n])];
  }

  /** A key that is not left over is one too many. */
  lemma OneTooMany(a: seq<Membership>, b: seq<Membership>, n: nat, rest: multiset<Key>)
    requires n < |b| && rest + multiset(MemberKeys(b[..n])) == multiset(MemberKeys(a)) && MemberKey(b[n]) !in rest
    ensures !SameMembers(a, b)
  {
    KeysNext(b, n);
    assert MemberKeys(b) == MemberKeys(b[..n + 1]) + MemberKeys(b[n + 1..]);
    var k := MemberKey(b[n]);
    assert multiset(MemberKeys(b))[k] > multiset(MemberKeys(a))[k];
  }

  lemma SameNeedsLength(a: seq<Membership>, b: seq<Membership>)
    ensures SameMembers(a, b) ==> |a| == |b|
  {
    assert |multiset(MemberKeys(a))| == |a| && |multiset(MemberKeys(b))| == |b|;
  }

  method CountKeys(a: seq<Membership>) returns (counts: map<Key, int>)
    ensures Counts(counts, multiset(MemberKeys(a)))
  {
    counts := map[];
    for n := 0 to |a|
      invariant Counts(counts, multiset(MemberKeys(a[..n])))
    {
      KeysNext(a, n);
      var k := MemberKey(a[n]);
      counts := counts[k := Count(counts, k) + 1];
    }
    assert a[..|a|] == a;
  }

  /** Counts the keys of one list up and those of the other down: it decides multiset equality. */
  method GroupMembersEqual(a: seq<Membership>, b: seq<Membership>) returns (same: bool)
    ensures same <==> SameMembers(a, b)
  {
    SameNeedsLength(a, b);
    if |a| != |b| {
      return false;
    }
    if |a| == 0 {
      return true;
    }
    var counts := CountKeys(a);
    ghost var rest := multiset(MemberKeys(a));
    assert b[..0] == [];
    for n := 0 to |b|
      invariant Counts(counts, rest) && rest + multiset(MemberKeys(b[..n])) == multiset(MemberKeys(a))
    {
      var k := MemberKey(b[n]);
      if Count(counts, k) <= 0 {
        OneTooMany(a, b, n, rest);
        return false;
      }
      KeysNext(b, n);
      counts := counts[k := Count(counts, k) - 1];
      rest := rest - multiset{k};
    }
    assert b[..|b|] == b;
    same := true;
  }

  lemma AddMembersNext(s: Store, group: nat, workspace: nat, ms: seq<Member>, seen: set<nat>, merging: bool, n: nat)
    requires n < |ms| && AddMembers(s, group, workspace, ms[..n], seen, merging).Some?
    ensures var (t, known) := AddMembers(s, group, workspace, ms[..n], seen, merging).value;
            AddMembers(s, group, workspace, ms[..n + 1], seen, merging) == AddNext(t, group, workspace, ms[n], known, merging)
  {
    var upTo := ms[..n + 1];
    assert upTo[..|upTo| - 1] == ms[..n] && upTo[n] == ms[n];
  }

  lemma {:induction false} AddMembersFails(s: Store, group: nat, workspace: nat, ms: seq<Member>, seen: set<nat>, merging: bool, n: nat)
    requires n <= |ms| && AddMembers(s, group, workspace, ms[..n], seen, merging).None?
    ensures AddMembers(s, group, workspace, ms, seen, merging).None?
    decreases |ms| - n
  {
    if n == |ms| {
      assert ms[..n] == ms;
    } else {
      var upTo := ms[..n + 1];
      assert upTo[..|upTo| - 1] == ms[..n];
      AddMembersFails(s, group, workspace, ms, seen, merging, n + 1);
    }
  }

  lemma RemoveListedNext(d: Draft, ms: seq<Member>, n: nat)
    requires n < |ms| && RemoveListed(d, ms[..n]).Some?
    ensures var e := RemoveListed(d, ms[..n]).value;
            RemoveListed(d, ms[..n + 1]) ==
              if ms[n].conflict then None else if ms[n].target.Named? then Some(RemoveOne(e, ms[n].target.id)) else Some(e)
  {
    var upTo := ms[..n + 1];
    assert upTo[..|upTo| - 1] == ms[..n] && upTo[n] == ms[n];
  }

  lemma {:induction false} RemoveListedFails(d: Draft, ms: seq<Member>, n: nat)
    requires n <= |ms| && RemoveListed(d, ms[..n]).None?
    ensures RemoveListed(d, ms).None?
    decreases |ms| - n
  {
    if n == |ms| {
      assert ms[..n] == ms;
    } else {
      var upTo := ms[..n + 1];
      assert upTo[..|upTo| - 1] == ms[..n];
      RemoveListedFails(d, ms, n + 1);
    }
  }

  lemma ApplyAllNext(d: Draft, ops: seq<Op>, n: nat)
    requires n < |ops| && ApplyAll(d, ops[..n]).Some?
    ensures ApplyAll(d, ops[..n + 1]) == Apply(ApplyAll(d, ops[..n]).value, ops[n])
  {
    var upTo := ops[..n + 1];
    assert upTo[..|upTo| - 1] == ops[..n] && upTo[n] == ops[n];
  }

  lemma {:induction false} ApplyAllFails(d: Draft, ops: seq<Op>, n: nat)
    requires n <= |ops| && ApplyAll(d, ops[..n]).None?
    ensures ApplyAll(d, ops).None?
    decreases |ops| - n
  {
    if n == |ops| {
      assert ops[..n] == ops;
    } else {
      var upTo := ops[..n + 1];
      assert upTo[..|upTo| - 1] == ops[..n];
      ApplyAllFails(d, ops, n + 1);
    }
  }

  class GroupObject {
    const db: Database
    const id: nat
    const workspace: nat
    var displayName: string
    var externalId: Option<string>
    var version: nat
    var members: seq<Membership>

    constructor (db: Database, id: nat)
      requires id in db.store.groups
      ensures this.db == db && this.id == id && Now() == Load(db.store, id) && version == db.store.groups[id].version
    {
      var g := db.store.groups[id];
      this.db, this.id, this.workspace := db, id, g.workspace;
      displayName, externalId, version := g.displayName, g.externalId, g.version;
      members := RowsOf(db.store.rows, id);
    }

    /** The rows and the group in memory, together. */
    function Now(): Draft
      reads this, db
    {
      Draft(db.store, id, workspace, displayName, externalId, members)
    }

    method AddMissingMembers(ms: seq<Member>) returns (ok: bool)
      modifies db, `members
      ensures match AddMissing(old(Now()), ms) case None => !ok case Some(d) => ok && Now() == d
    {
      ghost var start, seen := db.store, Values(members);
      var existing, addedAny := Values(members), false;
      var newlyAdded: set<nat> := {};
      assert existing + newlyAdded == seen;
      assert ms[..0] == [];
      for n := 0 to |ms|
        invariant AddMembers(start, id, workspace, ms[..n], seen, true) == Some((db.store, existing + newlyAdded))
        invariant addedAny <==> existing + newlyAdded != seen
        invariant existing == seen && members == old(members)
      {
        var m := ms[n];
        AddMembersNext(start, id, workspace, ms, seen, true, n);
        if m.conflict {
          AddMembersFails(start, id, workspace, ms, seen, true, n + 1);
          return false;
        }
        if m.target.Nothing? && !m.hasRef {
        } else if m.target.Named? && (m.target.id in existing || m.target.id in newlyAdded) {
        } else {
          var added := db.AddMember(id, workspace, m);
          if !added {
            AddMembersFails(start, id, workspace, ms, seen, true, n + 1);
            return false;
          }
          assert existing + newlyAdded + {m.target.id} == existing + (newlyAdded + {m.target.id});
          newlyAdded := newlyAdded + {m.target.id};
          addedAny := true;
        }
      }
      assert ms[..|ms|] == ms;
      if addedAny {
        members := RowsOf(db.store.rows, id);
      }
      ok := true;
    }

    method ReplaceMembers(ms: seq<Member>) returns (ok: bool)
      modifies db, `members
      ensures match ReplaceAll(old(Now()), ms) case None => !ok case Some(d) => ok && Now() == d
    {
      if !TypesKept(members, ms) {
        return false;
      }
      db.DeleteRows(NotIn(id));
      ghost var start := db.store;
      members := [];
      var seen: set<nat> := {};
      assert ms[..0] == [];
      for n := 0 to |ms|
        invariant AddMembers(start, id, workspace, ms[..n], {}, false) == Some((db.store, seen))
      {
        var m := ms[n];
        AddMembersNext(start, id, workspace, ms, {}, false, n);
        if m.conflict {
          AddMembersFails(start, id, workspace, ms, {}, false, n + 1);
          return false;
        }
        if !(m.target.Named? && m.target.id in seen) {
          var added := db.AddMember(id, workspace, m);
          if !added {
            AddMembersFails(start, id, workspace, ms, {}, false, n + 1);
            return false;
          }
          seen := seen + {m.target.id};
        }
      }
      assert ms[..|ms|] == ms;
      members := RowsOf(db.store.rows, id);
      ok := true;
    }

    method RemoveMember(value: nat)
      modifies db, `members
      ensures Now() == RemoveOne(old(Now()), value)
    {
      db.DeleteRows(NotMember(id, value));
      members := WithoutMember(members, value);
    }

    method RemoveMembersByValueList(ms: seq<Member>) returns (ok: bool)
      modifies db, `members
      ensures match RemoveListed(old(Now()), ms) case None => !ok case Some(d) => ok && Now() == d
    {
      ghost var start := Now();
      assert ms[..0] == [];
      for n := 0 to |ms|
        invariant RemoveListed(start, ms[..n]) == Some(Now())
      {
        RemoveListedNext(start, ms, n);
        if ms[n].conflict {
          RemoveListedFails(start, ms, n + 1);
          return false;
        }
        if ms[n].target.Named? {
          RemoveMember(ms[n].target.id);
        }
      }
      assert ms[..|ms|] == ms;
      ok := true;
    }

    method ApplyMemberSubAttrAdd(value: nat, t: string) returns (ok: bool)
      modifies db, `members
      ensures match SetType(old(Now()), value, t) case None => !ok case Some(d) => ok && Now() == d
    {
      var i := FindMember(members, value);
      if i == |members| {
        return false;
      }
      if !Blank(members[i].mtype) {
        return EqualFold(TrimSpace(members[i].mtype.value), t);
      }
      if !HasType(db.store, value, workspace, t) {
        return false;
      }
      db.store := db.store.(rows := Retype(db.store.rows, members[i].id, workspace, t));
      members := members[i := members[i].(mtype := Some(t))];
      ok := true;
    }

    method ApplyGroupPatchOp(op: Op) returns (ok: bool)
      modifies db, `members, `displayName, `externalId
      ensures match Apply(old(Now()), op) case None => !ok case Some(d) => ok && Now() == d
    {
      match op
      case Add(ms) => ok := AddMissingMembers(ms);
      case ReplaceMembers(ms) => ok := ReplaceMembers(ms);
      case RemoveAll =>
        db.DeleteRows(NotIn(id));
        members := [];
        ok := true;
      case RemoveMembers(ms) => ok := RemoveMembersByValueList(ms);
      case RemoveMember(value) =>
        if value.Some? {
          RemoveMember(value.value);
        }
        ok := true;
      case AddType(value, t) =>
        if value.None? || t.None? {
          return false;
        }
        ok := ApplyMemberSubAttrAdd(value.value, t.value);
      case SetName(name) =>
        if name.None? || (name.value != displayName && NameTaken(db.store, workspace, name.value, id)) {
          return false;
        }
        displayName := name.value;
        ok := true;
      case SetExternal(external) =>
        if external.None? {
          return false;
        }
        externalId := external.value;
        ok := true;
      case Keep => ok := true;
      case Reject => ok := false;
    }

    /** The guarded write under the next version. */
    method UpdateTx() returns (ok: bool)
      modifies db, `version
      ensures ok <==> id in old(db.store.groups) && old(db.store.groups)[id].version == old(version)
      ensures db.store == if ok then Written(old(Now())) else old(db.store)
    {
      var before := version;
      version := version + 1;
      ok := id in db.store.groups && db.store.groups[id].version == before;
      if ok {
        db.store := db.store.(groups := db.store.groups[id := Group(workspace, displayName, externalId, version)]);
      }
    }
  }

  lemma ApplyKeepsGroups(d: Draft, op: Op)
    requires Apply(d, op).Some?
    ensures Apply(d, op).value.store.groups == d.store.groups && Apply(d, op).value.id == d.id && Apply(d, op).value.workspace == d.workspace
  {
    match op
    case Add(ms) => AddMembersKeepsGroups(d.store, d.id, d.workspace, ms, Values(d.members), true);
    case ReplaceMembers(ms) => AddMembersKeepsGroups(Delete(d.store, NotIn(d.id)), d.id, d.workspace, ms, {}, false);
    case RemoveMembers(ms) => RemoveListedKeepsGroups(d, ms);
    case _ =>
  }

  lemma {:induction false} AddMembersKeepsGroups(s: Store, group: nat, workspace: nat, ms: seq<Member>, seen: set<nat>, merging: bool)
    requires AddMembers(s, group, workspace, ms, seen, merging).Some?
    ensures AddMembers(s, group, workspace, ms, seen, merging).value.0.groups == s.groups
  {
    if ms != [] {
      AddMembersKeepsGroups(s, group, workspace, ms[..|ms| - 1], seen, merging);
    }
  }

  lemma {:induction false} RemoveListedKeepsGroups(d: Draft, ms: seq<Member>)
    requires RemoveListed(d, ms).Some?
    ensures var e := RemoveListed(d, ms).value; e.store.groups == d.store.groups && e.id == d.id && e.workspace == d.workspace
  {
    if ms != [] {
      RemoveListedKeepsGroups(d, ms[..|ms| - 1]);
    }
  }

  /** A PATCH request in a transaction: it leaves what the specification says, or everything as it was. */
  method ExecutePatchGroup(db: Database, id: nat, workspace: nat, ifMatch: Option<nat>, ops: seq<Op>) returns (ok: bool)
    modifies db
    ensures match PatchGroup(old(db.store), id, workspace, ifMatch, ops)
            case None => !ok && db.store == old(db.store)
            case Some(s) => ok && db.store == s
  {
    var begin := db.store;
    if id !in db.store.groups || db.store.groups[id].workspace != workspace {
      return false;
    }
    var group := new GroupObject(db, id);
    if ifMatch.Some? && ifMatch.value != group.version {
      return false;
    }
    var beforeName, beforeExternal, beforeMembers := group.displayName, group.externalId, group.members;
    ghost var start := group.Now();
    assert ops[..0] == [];
    for n := 0 to |ops|
      invariant group.db == db && group.id == id && group.workspace == workspace && group.version == begin.groups[id].version
      invariant ApplyAll(start, ops[..n]) == Some(group.Now()) && db.store.groups == begin.groups
    {
      ApplyAllNext(start, ops, n);
      ghost var d := group.Now();
      var applied := group.ApplyGroupPatchOp(ops[n]);
      if !applied {
        ApplyAllFails(start, ops, n + 1);
        db.store := begin;
        return false;
      }
      ApplyKeepsGroups(d, ops[n]);
    }
    assert ops[..|ops|] == ops;
    var afterMembers := RowsOf(db.store.rows, id);
    var same := GroupMembersEqual(beforeMembers, afterMembers);
    if group.displayName != beforeName || group.externalId != beforeExternal || !same {
      var updated := group.UpdateTx();
      assert updated; // nobody else writes within the transaction
    }
    ok := true;
  }

  /** Deleting a group: rows naming it as a member, its own rows, the group. */
  method ExecuteDeleteGroup(db: Database, id: nat, workspace: nat, ifMatch: Option<nat>) returns (ok: bool)
    modifies db
    ensures db.store == Handle(old(db.store), RemoveGroup(id, workspace, ifMatch))
    ensures ok <==> Found(old(db.store), id, workspace, ifMatch)
  {
    if !db.HasGroup(id, workspace) || (ifMatch.Some? && ifMatch.value != db.store.groups[id].version) {
      return false;
    }
    db.DeleteRows(NotValue(id));
    db.DeleteRows(NotIn(id));
    db.store := db.store.(groups := db.store.groups - {id});
    ok := true;
  }

  method ExecuteDeleteUser(db: Database, id: nat, workspace: nat, matches: bool) returns (ok: bool)
    modifies db
    ensures db.store == Handle(old(db.store), RemoveUser(id, workspace, matches))
    ensures ok <==> id in old(db.store).users && old(db.store).users[id] == workspace && matches
  {
    if !db.HasUser(id, workspace) || !matches {
      return false;
    }
    db.DeleteRows(NotValue(id));
    db.store := db.store.(users := db.store.users - {id});
    ok := true;
  }
}
