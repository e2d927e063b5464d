/**
 What each operation on a group leaves in its member list, its name and its external id, and
 exactly when it is accepted.
 */
module GroupEffects {
  import opened Text
  import opened GroupMembers
  import opened GroupRequests

  // ----- which members may be added

  predicate IsUser(s: Store, id: nat, workspace: nat) {
    id in s.users && s.users[id] == workspace
  }

  predicate IsGroup(s: Store, id: nat, workspace: nat) {
    id in s.groups && s.groups[id].workspace == workspace
  }

  /** The member names a resource of the workspace, of the type given if there is one. */
  predicate Addable(s: Store, workspace: nat, m: Member) {
    && !m.conflict && m.target.Named?
    && match m.mtype
       case NoType => IsUser(s, m.target.id, workspace) || IsGroup(s, m.target.id, workspace)
       case Typed(t) => (EqualFold(t, "User") && IsUser(s, m.target.id, workspace)) || (EqualFold(t, "Group") && IsGroup(s, m.target.id, workspace))
       case BadType => false
  }

  lemma UserIsNoGroup(t: string)
    ensures !(EqualFold(t, "User") && EqualFold(t, "Group"))
  {
    assert |ToLower("User")| == 4 && |ToLower("Group")| == 5;
  }

  /** A member is added exactly if it may be, as a new row of the group with the type of its resource. */
  lemma AddMemberExactlyIf(s: Store, group: nat, workspace: nat, m: Member)
    ensures var r := AddMember(s, group, workspace, m);
            && (r.Some? <==> Addable(s, workspace, m))
            && (r.Some? ==>
                  && |r.value.rows| == |s.rows| + 1 && r.value.rows[..|s.rows|] == s.rows
                  && var row := r.value.rows[|s.rows|];
                     && row.id == s.next && row.group == group && row.workspace == workspace && row.value == m.target.id
                     && (row.mtype == Some("User") <==> IsUser(s, m.target.id, workspace) && !(m.mtype.Typed? && EqualFold(m.mtype.t, "Group")))
                     && (row.mtype == Some("User") || row.mtype == Some("Group")))
  {
    if m.mtype.Typed? {
      UserIsNoGroup(m.mtype.t);
    }
  }

  /** Member j of the list is fine: it may be added, was seen before, or, where lists are merged, names nothing at all. */
  ghost predicate Fine(s: Store, workspace: nat, ms: seq<Member>, seen: set<nat>, merging: bool, j: nat)
    requires j < |ms|
  {
    && !ms[j].conflict
    && (|| (merging && ms[j].target.Nothing? && !ms[j].hasRef)
        || (ms[j].target.Named? && (ms[j].target.id in seen || exists i :: 0 <= i < j && ms[i].target == ms[j].target))
        || Addable(s, workspace, ms[j]))
  }

  /** A list is added exactly if all its members are fine. */
  lemma {:induction false} AddMembersExactlyIf(s: Store, group: nat, workspace: nat, ms: seq<Member>, seen: set<nat>, merging: bool)
    ensures AddMembers(s, group, workspace, ms, seen, merging).Some? <==> forall j | 0 <= j < |ms| :: Fine(s, workspace, ms, seen, merging, j)
    ensures AddMembers(s, group, workspace, ms, seen, merging).Some? ==>
              && AddMembers(s, group, workspace, ms, seen, merging).value.0.users == s.users
              && AddMembers(s, group, workspace, ms, seen, merging).value.0.groups == s.groups
  {
    if ms != [] {
      var before, n := ms[..|ms| - 1], |ms| - 1;
      AddMembersExactlyIf(s, group, workspace, before, seen, merging);
      forall j | 0 <= j < n
        ensures Fine(s, workspace, before, seen, merging, j) <==> Fine(s, workspace, ms, seen, merging, j)
      {
        SameSoFar(s, workspace, ms, seen, merging, j);
      }
      if AddMembers(s, group, workspace, before, seen, merging).Some? {
        var (t, known) := AddMembers(s, group, workspace, before, seen, merging).value;
        NamedAreKnown(s, group, workspace, before, seen, merging);
        AddMemberExactlyIf(t, group, workspace, ms[n]);
        NamedBefore(ms);
        assert Addable(t, workspace, ms[n]) <==> Addable(s, workspace, ms[n]);
        assert Fine(s, workspace, ms, seen, merging, n) <==> AddNext(t, group, workspace, ms[n], known, merging).Some?;
      }
    }
  }

  lemma SameSoFar(s: Store, workspace: nat, ms: seq<Member>, seen: set<nat>, merging: bool, j: nat)
    requires j + 1 < |ms|
    ensures Fine(s, workspace, ms[..|ms| - 1], seen, merging, j) <==> Fine(s, workspace, ms, seen, merging, j)
  {
    var before := ms[..|ms| - 1];
    assert forall i | 0 <= i <= j :: before[i] == ms[i];
  }

  lemma NamedBefore(ms: seq<Member>)
    requires ms != []
    ensures var n := |ms| - 1;
            ms[n].target.Named? ==> (ms[n].target.id in NamedIn(ms[..n]) <==> exists i :: 0 <= i < n && ms[i].target == ms[n].target)
  {
    var n := |ms| - 1;
    var before := ms[..n];
    if ms[n].target.Named? {
      if ms[n].target.id in NamedIn(before) {
        var m :| m in before && m.target.Named? && m.target.id == ms[n].target.id;
        var i :| 0 <= i < n && before[i] == m;
        assert ms[i].target == ms[n].target;
      }
      if i :| 0 <= i < n && ms[i].target == ms[n].target {
        assert before[i] in before;
      }
    }
  }

  // ----- each operation of a PATCH

  ghost predicate SameName(d: Draft, e: Draft) {
    e.id == d.id && e.workspace == d.workspace && e.displayName == d.displayName && e.externalId == d.externalId
  }

  /** An addition keeps the members there, in their order, and puts after them those named that are new. */
  lemma AddAdds(d: Draft, ms: seq<Member>)
    requires Mirrors(d)
    ensures var r := Apply(d, Op.Add(ms));
            && (r.Some? <==> forall j | 0 <= j < |ms| :: Fine(d.store, d.workspace, ms, Values(d.members), true, j))
            && (r.Some? ==> SameName(d, r.value) && d.members <= r.value.members && Values(r.value.members) == Values(d.members) + NamedIn(ms))
  {
    AddMembersExactlyIf(d.store, d.id, d.workspace, ms, Values(d.members), true);
    if AddMissing(d, ms).Some? {
      AddMissingMirrors(d, ms);
      AddMembersIsGood(d.store, d.id, d.workspace, ms, Values(d.members), true);
      NamedAreKnown(d.store, d.id, d.workspace, ms, Values(d.members), true);
    }
  }

  /** No member of the list is given another type than it has. */
  ghost predicate NoOtherType(d: Draft, ms: seq<Member>) {
    forall m, x | m in d.members && x in ms && x.target == Named(m.value) && x.mtype.Typed? ::
      m.mtype == None || m.mtype == Some("") || EqualFold(m.mtype.value, x.mtype.t)
  }

  lemma TypesKeptIs(d: Draft, ms: seq<Member>)
    ensures TypesKept(d.members, ms) <==> NoOtherType(d, ms)
  {
    if NoOtherType(d, ms) {
      forall i, j | 0 <= i < |d.members| && 0 <= j < |ms| && ms[j].target == Named(d.members[i].value) && ms[j].mtype.Typed?
                    && d.members[i].mtype.Some? && d.members[i].mtype.value != ""
        ensures EqualFold(d.members[i].mtype.value, ms[j].mtype.t)
      {
        assert d.members[i] in d.members && ms[j] in ms;
      }
    }
    if TypesKept(d.members, ms) {
      forall m, x | m in d.members && x in ms && x.target == Named(m.value) && x.mtype.Typed?
        ensures m.mtype == None || m.mtype == Some("") || EqualFold(m.mtype.value, x.mtype.t)
      {
        var i :| 0 <= i < |d.members| && d.members[i] == m;
        var j :| 0 <= j < |ms| && ms[j] == x;
      }
    }
  }

  /** A replacement leaves exactly the members named. */
  lemma ReplaceLeavesNamed(d: Draft, ms: seq<Member>)
    requires Mirrors(d)
    ensures var r := Apply(d, Op.ReplaceMembers(ms));
            && (r.Some? <==> NoOtherType(d, ms) && forall j | 0 <= j < |ms| :: Fine(d.store, d.workspace, ms, {}, false, j))
            && (r.Some? ==> SameName(d, r.value) && Values(r.value.members) == NamedIn(ms))
  {
    TypesKeptIs(d, ms);
    var emptied := Delete(d.store, NotIn(d.id));
    AddMembersExactlyIf(emptied, d.id, d.workspace, ms, {}, false);
    assert forall j | 0 <= j < |ms| :: Fine(emptied, d.workspace, ms, {}, false, j) <==> Fine(d.store, d.workspace, ms, {}, false, j);
    if ReplaceAll(d, ms).Some? {
      ReplaceAllMirrors(d, ms);
    }
  }

  lemma RemoveAllLeavesNone(d: Draft)
    ensures var r := Apply(d, Op.RemoveAll); r.Some? && SameName(d, r.value) && r.value.members == []
  {
  }

  function NotAmong(gone: set<nat>): Membership -> bool {
    (m: Membership) => m.value !in gone
  }

  /** The members are those of before whose values are not gone, in their order. */
  ghost predicate LeftOf(before: seq<Membership>, after: seq<Membership>, gone: set<nat>) {
    after == Filter(before, NotAmong(gone))
  }

  lemma LeftAre(before: seq<Membership>, after: seq<Membership>, gone: set<nat>, m: Membership)
    requires LeftOf(before, after, gone)
    ensures m in after <==> m in before && m.value !in gone
  {
    FilterMembers(before, NotAmong(gone), m);
  }

  lemma NothingGone(before: seq<Membership>)
    ensures LeftOf(before, before, {})
  {
    AllKept(before, NotAmong({}));
  }

  lemma {:induction false} AllKept(rows: seq<Membership>, keep: Membership -> bool)
    requires forall m :: keep(m)
    ensures Filter(rows, keep) == rows
  {
    if rows != [] {
      AllKept(rows[..|rows| - 1], keep);
    }
  }

  lemma OneMoreGone(before: seq<Membership>, after: seq<Membership>, gone: set<nat>, value: nat)
    requires LeftOf(before, after, gone)
    ensures LeftOf(before, Filter(after, NotValue(value)), gone + {value})
  {
    FilterAnd(before, NotAmong(gone), NotValue(value), NotAmong(gone + {value}));
  }

  lemma NamedSnoc(ms: seq<Member>)
    requires ms != []
    ensures var before, m := ms[..|ms| - 1], ms[|ms| - 1];
            && NamedIn(ms) == (if m.target.Named? then NamedIn(before) + {m.target.id} else NamedIn(before))
            && ((forall x | x in ms :: !x.conflict) <==> !m.conflict && forall x | x in before :: !x.conflict)
  {
    assert ms == ms[..|ms| - 1] + [ms[|ms| - 1]];
  }

  /** A removal of listed members leaves exactly the others; it is accepted unless one contradicts itself. */
  lemma {:induction false} RemoveMembersRemoves(d: Draft, ms: seq<Member>)
    ensures var r := Apply(d, Op.RemoveMembers(ms));
            && (r.Some? <==> forall m | m in ms :: !m.conflict)
            && (r.Some? ==> SameName(d, r.value) && LeftOf(d.members, r.value.members, NamedIn(ms)))
  {
    if ms == [] {
      NothingGone(d.members);
      assert NamedIn(ms) == {};
    } else {
      var before, m := ms[..|ms| - 1], ms[|ms| - 1];
      NamedSnoc(ms);
      RemoveMembersRemoves(d, before);
      if RemoveListed(d, ms).Some? && m.target.Named? {
        OneMoreGone(d.members, RemoveListed(d, before).value.members, NamedIn(before), m.target.id);
      }
    }
  }

  lemma RemoveMemberRemoves(d: Draft, value: Option<nat>)
    ensures var r := Apply(d, Op.RemoveMember(value));
            r.Some? && SameName(d, r.value) && LeftOf(d.members, r.value.members, if value.None? then {} else {value.value})
  {
    NothingGone(d.members);
    if value.Some? {
      OneMoreGone(d.members, d.members, {}, value.value);
      assert {} + {value.value} == {value.value};
    }
  }

  /** The name and the external id are set by themselves; a name must be free in the workspace. */
  lemma SettersSet(d: Draft, name: Option<string>, external: Option<Option<string>>)
    ensures var r := Apply(d, SetName(name));
            && (r.Some? <==> name.Some? && (name == Some(d.displayName)
                             || forall g | g in d.store.groups && g != d.id && d.store.groups[g].workspace == d.workspace ::
                                  d.store.groups[g].displayName != name.value))
            && (r.Some? ==> r.value.displayName == name.value && r.value.externalId == d.externalId
                            && r.value.members == d.members && r.value.store == d.store)
    ensures var r := Apply(d, SetExternal(external));
            && (r.Some? <==> external.Some?)
            && (r.Some? ==> r.value.externalId == external.value && r.value.displayName == d.displayName
                            && r.value.members == d.members && r.value.store == d.store)
    ensures Apply(d, Keep) == Some(d) && Apply(d, Reject) == None
  {
  }

  /** A type is given to a member without one if there is such a resource; one that has it already keeps it, and no other member changes. */
  lemma AddTypeTypes(d: Draft, i: nat, t: string)
    requires Mirrors(d) && i < |d.members| && (t == "User" || t == "Group")
    ensures var r := Apply(d, AddType(Some(d.members[i].value), Some(t)));
            var m := d.members[i];
            var blank := m.mtype == None || TrimSpace(m.mtype.value) == "";
            && (r.Some? <==> if blank then (if t == "User" then IsUser(d.store, m.value, d.workspace) else IsGroup(d.store, m.value, d.workspace))
                             else EqualFold(TrimSpace(m.mtype.value), t))
            && (r.Some? ==> SameName(d, r.value) && r.value.members == if blank then d.members[i := m.(mtype := Some(t))] else d.members)
  {
    NoMemberTwice(d);
    OnlyOne(d.members, i);
  }

  lemma {:induction false} OnlyOne(members: seq<Membership>, i: nat)
    requires i < |members| && forall j, k | 0 <= j < k < |members| :: members[j].value != members[k].value
    ensures FindMember(members, members[i].value) == i
  {
  }

  lemma AddTypeNeedsMember(d: Draft, value: Option<nat>, t: Option<string>)
    requires value.None? || t.None? || forall m | m in d.members :: m.value != value.value
    ensures Apply(d, AddType(value, t)) == None
  {
  }

  // ----- when two member lists are the same

  /** The other list has the member too, with the same type but for its case. */
  ghost predicate HasAlike(ms: seq<Membership>, m: Membership) {
    exists n :: n in ms && n.value == m.value && TypeText(n) == TypeText(m)
  }

  function TypeText(m: Membership): string {
    match m.mtype case None => "" case Some(t) => ToLower(t)
  }

  ghost predicate AllDiffer(ms: seq<Membership>) {
    forall i, j | 0 <= i < j < |ms| :: ms[i].value != ms[j].value
  }

  /** Lists without repetitions are the same exactly if each member of one is in the other with the same type. */
  lemma SameMembersExactlyIf(a: seq<Membership>, b: seq<Membership>)
    requires AllDiffer(a) && AllDiffer(b)
    ensures SameMembers(a, b) <==> (forall m | m in a :: HasAlike(b, m)) && forall m | m in b :: HasAlike(a, m)
  {
    KeysOnce(a);
    KeysOnce(b);
    if SameMembers(a, b) {
      AlikeFromKeys(a, b);
      AlikeFromKeys(b, a);
    }
    if (forall m | m in a :: HasAlike(b, m)) && forall m | m in b :: HasAlike(a, m) {
      KeysFromAlike(a, b);
      KeysFromAlike(b, a);
      SameOnce(MemberKeys(a), MemberKeys(b));
    }
  }

  /** The keys of a list without repetitions occur once each. */
  lemma KeysOnce(ms: seq<Membership>)
    requires AllDiffer(ms)
    ensures forall k :: multiset(MemberKeys(ms))[k] <= 1
    ensures forall k :: k in MemberKeys(ms) <==> exists m :: m in ms && MemberKey(m) == k
  {
    var keys := MemberKeys(ms);
    forall k
      ensures multiset(keys)[k] <= 1
    {
      DistinctOnce(keys, k);
    }
    forall k | k in keys
      ensures exists m :: m in ms && MemberKey(m) == k
    {
      var i :| 0 <= i < |keys| && keys[i] == k;
      assert ms[i] in ms;
    }
    forall m | m in ms
      ensures MemberKey(m) in keys
    {
      var i :| 0 <= i < |ms| && ms[i] == m;
      assert keys[i] == MemberKey(m);
    }
  }

  lemma {:induction false} DistinctOnce<K>(keys: seq<K>, k: K)
    requires forall i, j | 0 <= i < j < |keys| :: keys[i] != keys[j]
    ensures multiset(keys)[k] <= 1
  {
    if keys != [] {
      var front, last := keys[..|keys| - 1], keys[|keys| - 1];
      assert keys == front + [last];
      DistinctOnce(front, k);
      assert last !in front;
      assert multiset(front)[last] == 0;
    }
  }

  lemma SameOnce<K(!new)>(a: seq<K>, b: seq<K>)
    requires forall k :: multiset(a)[k] <= 1 && multiset(b)[k] <= 1
    requires forall k :: k in a <==> k in b
    ensures multiset(a) == multiset(b)
  {
    forall k
      ensures multiset(a)[k] == multiset(b)[k]
    {
      assert k in a <==> k in multiset(a);
      assert k in b <==> k in multiset(b);
    }
  }

  lemma AlikeFromKeys(a: seq<Membership>, b: seq<Membership>)
    requires AllDiffer(a) && AllDiffer(b) && SameMembers(a, b)
    ensures forall m | m in a :: HasAlike(b, m)
  {
    KeysOnce(a);
    KeysOnce(b);
    forall m | m in a
      ensures HasAlike(b, m)
    {
      assert MemberKey(m) in MemberKeys(a);
      assert MemberKey(m) in multiset(MemberKeys(b));
      assert MemberKey(m) in MemberKeys(b);
    }
  }

  lemma KeysFromAlike(a: seq<Membership>, b: seq<Membership>)
    requires AllDiffer(a) && AllDiffer(b) && forall m | m in a :: HasAlike(b, m)
    ensures forall k | k in MemberKeys(a) :: k in MemberKeys(b)
  {
    KeysOnce(a);
    KeysOnce(b);
    forall k | k in MemberKeys(a)
      ensures k in MemberKeys(b)
    {
      var m :| m in a && MemberKey(m) == k;
      assert HasAlike(b, m);
      var n :| n in b && n.value == m.value && TypeText(n) == TypeText(m);
      assert MemberKey(n) == k;
    }
  }

  // ----- whole requests

  /** Operations run one after the other, and the first that fails fails all. */
  lemma AppliesInOrder(d: Draft, ops: seq<Op>, op: Op)
    ensures ApplyAll(d, []) == Some(d)
    ensures ApplyAll(d, ops + [op]) == match ApplyAll(d, ops) case None => None case Some(e) => Apply(e, op)
  {
    assert (ops + [op])[..|ops|] == ops;
  }

  /** A PATCH of a group that is there, under the version asked for, stores what its operations leave, unless one of them fails. */
  lemma PatchStores(s: Store, id: nat, workspace: nat, ifMatch: Option<nat>, ops: seq<Op>)
    requires Good(s) && forall n | 0 <= n < |ops| :: GoodType(ops[n])
    ensures var r := PatchGroup(s, id, workspace, ifMatch, ops);
            && (r.Some? <==>
                  && IsGroup(s, id, workspace) && (ifMatch == None || ifMatch == Some(s.groups[id].version))
                  && ApplyAll(Load(s, id), ops).Some?)
            && (r.Some? ==>
                  var d := ApplyAll(Load(s, id), ops).value;
                  && id in r.value.groups && r.value.groups[id].displayName == d.displayName && r.value.groups[id].externalId == d.externalId
                  && RowsOf(r.value.rows, id) == d.members)
  {
    if IsGroup(s, id, workspace) && ApplyAll(Load(s, id), ops).Some? {
      ApplyAllMirrors(Load(s, id), ops);
    }
  }

  /** The name is not that of another group of the workspace. */
  ghost predicate Free(s: Store, workspace: nat, name: string, id: nat) {
    forall g | g in s.groups && g != id && s.groups[g].workspace == workspace :: s.groups[g].displayName != name
  }

  function WithGroup(s: Store, workspace: nat, name: string, external: Option<string>): Store {
    s.(groups := s.groups[s.next := Group(workspace, name, external, 0)])
  }

  /** A group is created exactly if it has a free name, a proper external id and members that may be added. */
  lemma CreateExactlyIf(s: Store, workspace: nat, name: Option<string>, external: Option<Option<string>>, ms: seq<Member>)
    requires Good(s)
    ensures CreateGroup(s, workspace, name, external, ms).Some? <==>
              && name.Some? && external.Some? && Free(s, workspace, name.value, s.next)
              && forall j | 0 <= j < |ms| :: Fine(WithGroup(s, workspace, name.value, external.value), workspace, ms, {}, false, j)
    ensures CreateGroup(s, workspace, name, external, ms).Some? ==>
              CreateGroup(s, workspace, name, external, ms).value.groups == WithGroup(s, workspace, name.value, external.value).groups
  {
    if name.Some? && external.Some? && !NameTaken(s, workspace, name.value, s.next) {
      var t := WithGroup(s, workspace, name.value, external.value);
      var u := t.(next := s.next + 1);
      AddMembersExactlyIf(u, s.next, workspace, ms, {}, false);
      forall j | 0 <= j < |ms|
        ensures Fine(u, workspace, ms, {}, false, j) <==> Fine(t, workspace, ms, {}, false, j)
      {
      }
    }
  }

  /** A PUT of a group that is there, under the version asked for, is accepted exactly if its name is its own or free, and its members may be its. */
  lemma ReplaceExactlyIf(s: Store, id: nat, workspace: nat, ifMatch: Option<nat>, name: Option<string>, external: Option<Option<string>>, ms: seq<Member>)
    requires Good(s)
    ensures ReplaceGroup(s, id, workspace, ifMatch, name, external, ms).Some? <==>
              && IsGroup(s, id, workspace) && (ifMatch == None || ifMatch == Some(s.groups[id].version))
              && name.Some? && external.Some? && (name.value == s.groups[id].displayName || Free(s, workspace, name.value, id))
              && NoOtherType(Load(s, id), ms) && forall j | 0 <= j < |ms| :: Fine(s, workspace, ms, {}, false, j)
  {
    if Found(s, id, workspace, ifMatch) && name.Some? && external.Some? {
      var d := Load(s, id).(displayName := name.value, externalId := external.value);
      ReplaceLeavesNamed(d, ms);
      if ReplaceAll(d, ms).Some? {
        ReplaceAllMirrors(d, ms);
      }
      assert NoOtherType(d, ms) <==> NoOtherType(Load(s, id), ms);
    }
  }
}
