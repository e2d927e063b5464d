/**
 Groups and their membership rows: what each operation does to the stored rows and to the
 group's member list in memory, and what every run of requests keeps.
 */
module GroupMembers {
  import opened Text

  /** A stored membership. The type is free text, since rows may be older than the checks. */
  datatype Membership = Membership(id: nat, group: nat, workspace: nat, value: nat, mtype: Option<string>)

  datatype Group = Group(workspace: nat, displayName: string, externalId: Option<string>, version: nat)

  /** Users by identifier with their workspace, groups, membership rows, and the next fresh identifier. */
  datatype Store = Store(users: map<nat, nat>, groups: map<nat, Group>, rows: seq<Membership>, next: nat)

  // ----- rows

  function Filter(rows: seq<Membership>, keep: Membership -> bool): seq<Membership> {
    if rows == [] then []
    else
      var last := rows[|rows| - 1];
      Filter(rows[..|rows| - 1], keep) + if keep(last) then [last] else []
  }

  function InGroup(group: nat): Membership -> bool {
    (m: Membership) => m.group == group
  }

  function RowsOf(rows: seq<Membership>, group: nat): seq<Membership> {
    Filter(rows, InGroup(group))
  }

  lemma {:induction false} FilterMembers(rows: seq<Membership>, keep: Membership -> bool, m: Membership)
    ensures m in Filter(rows, keep) <==> m in rows && keep(m)
  {
    if rows != [] {
      FilterMembers(rows[..|rows| - 1], keep, m);
      assert rows == rows[..|rows| - 1] + [rows[|rows| - 1]];
    }
  }

  lemma {:induction false} FilterAnd(rows: seq<Membership>, a: Membership -> bool, b: Membership -> bool, c: Membership -> bool)
    requires forall m :: c(m) == (a(m) && b(m))
    ensures Filter(Filter(rows, a), b) == Filter(rows, c)
  {
    if rows != [] {
      var before, last := rows[..|rows| - 1], rows[|rows| - 1];
      FilterAnd(before, a, b, c);
      if a(last) {
        assert (Filter(before, a) + [last])[..|Filter(before, a)|] == Filter(before, a);
      } else {
        assert Filter(before, a) + [] == Filter(before, a);
      }
    }
  }

  // ----- what the store keeps

  predicate Exists(s: Store, id: nat, workspace: nat) {
    (id in s.users && s.users[id] == workspace) || (id in s.groups && s.groups[id].workspace == workspace)
  }

  /** A row names an existing group and an existing user or group of the same workspace, of the type it says. */
  predicate RowOk(s: Store, m: Membership) {
    && m.group in s.groups && s.groups[m.group].workspace == m.workspace
    && Exists(s, m.value, m.workspace)
    && (m.mtype == Some("User") ==> m.value in s.users && s.users[m.value] == m.workspace)
    && (m.mtype == Some("Group") ==> m.value in s.groups && s.groups[m.value].workspace == m.workspace)
    && m.id < s.next
  }

  /** Two rows differ in their identifiers and in group or member. */
  predicate Apart(a: Membership, b: Membership) {
    a.id != b.id && (a.group != b.group || a.value != b.value)
  }

  ghost predicate AllApart(rows: seq<Membership>) {
    forall i, j | 0 <= i < j < |rows| :: Apart(rows[i], rows[j])
  }

  ghost predicate Good(s: Store) {
    && (forall m | m in s.rows :: RowOk(s, m))
    && AllApart(s.rows)
    && (forall id | id in s.users || id in s.groups :: id < s.next)
  }

  lemma {:induction false} FilterKeepsApart(rows: seq<Membership>, keep: Membership -> bool)
    requires AllApart(rows)
    ensures AllApart(Filter(rows, keep))
  {
    if rows != [] {
      var before, last := rows[..|rows| - 1], rows[|rows| - 1];
      var r := Filter(before, keep);
      FilterKeepsApart(before, keep);
      forall i | 0 <= i < |r| ensures Apart(r[i], last) {
        FilterMembers(before, keep, r[i]);
        var j :| 0 <= j < |before| && before[j] == r[i];
        assert Apart(rows[j], rows[|rows| - 1]);
      }
    }
  }

  // ----- adding a member

  /** The "type" of an incoming member: missing or empty, a text, or something else. */
  datatype TypeField = NoType | Typed(t: string) | BadType

  /** The resource an incoming member names: none, no identifier, or an identifier. */
  datatype Target = Nothing | Malformed | Named(id: nat)

  /** value and $ref conflict or are not texts; the resource named; whether a $ref was given. */
  datatype Member = Member(conflict: bool, target: Target, hasRef: bool, mtype: TypeField)

  /** The canonical type of a member that may be added; without a type, users come first. */
  function TypeOf(s: Store, workspace: nat, m: Member): Option<string> {
    if m.conflict || !m.target.Named? || m.mtype.BadType? then None
    else
      var id := m.target.id;
      var isUser := id in s.users && s.users[id] == workspace;
      var isGroup := id in s.groups && s.groups[id].workspace == workspace;
      if m.mtype.NoType? then
        if isUser then Some("User") else if isGroup then Some("Group") else None
      else if EqualFold(m.mtype.t, "Group") then
        if isGroup then Some("Group") else None
      else if EqualFold(m.mtype.t, "User") then
        if isUser then Some("User") else None
      else None
  }

  function AddMember(s: Store, group: nat, workspace: nat, m: Member): Option<Store> {
    var t := TypeOf(s, workspace, m);
    if t.None? then None
    else Some(s.(rows := s.rows + [Membership(s.next, group, workspace, m.target.id, t)], next := s.next + 1))
  }

  /**
   Members one after another, those seen before skipped. A list that is merged passes over
   members that name nothing; a list that replaces rejects them.
   */
  function AddMembers(s: Store, group: nat, workspace: nat, ms: seq<Member>, seen: set<nat>, merging: bool): Option<(Store, set<nat>)> {
    if ms == [] then Some((s, seen))
    else
      match AddMembers(s, group, workspace, ms[..|ms| - 1], seen, merging)
      case None => None
      case Some((t, known)) => AddNext(t, group, workspace, ms[|ms| - 1], known, merging)
  }

  function AddNext(s: Store, group: nat, workspace: nat, m: Member, known: set<nat>, merging: bool): Option<(Store, set<nat>)> {
    if m.conflict then None
    else if m.target.Nothing? && merging && !m.hasRef then Some((s, known))
    else if m.target.Named? && m.target.id in known then Some((s, known))
    else
      match AddMember(s, group, workspace, m)
      case None => None
      case Some(u) => Some((u, known + {m.target.id}))
  }

  function Values(ms: seq<Membership>): set<nat> {
    set m | m in ms :: m.value
  }

  lemma AddMemberIsGood(s: Store, group: nat, workspace: nat, m: Member)
    requires Good(s) && group in s.groups && s.groups[group].workspace == workspace
    requires AddMember(s, group, workspace, m).Some? && m.target.id !in Values(RowsOf(s.rows, group))
    ensures var t := AddMember(s, group, workspace, m).value;
            && Good(t) && t.users == s.users && t.groups == s.groups
            && RowsOf(t.rows, group) == RowsOf(s.rows, group) + [t.rows[|s.rows|]]
            && t.rows[|s.rows|].value == m.target.id
  {
    var t := AddMember(s, group, workspace, m).value;
    var row := t.rows[|s.rows|];
    forall i | 0 <= i < |s.rows| ensures Apart(s.rows[i], row) {
      assert s.rows[i] in s.rows && RowOk(s, s.rows[i]);
      FilterMembers(s.rows, InGroup(group), s.rows[i]);
    }
    forall r | r in t.rows ensures RowOk(t, r) {
      if r != row {
        assert r in s.rows;
      }
    }
  }

  /** The resources that the members of a list name. */
  function NamedIn(ms: seq<Member>): set<nat> {
    set m | m in ms && m.target.Named? :: m.target.id
  }

  /** Members seen before and those named are the members known afterwards. */
  lemma {:induction false} NamedAreKnown(s: Store, group: nat, workspace: nat, ms: seq<Member>, seen: set<nat>, merging: bool)
    requires AddMembers(s, group, workspace, ms, seen, merging).Some?
    ensures AddMembers(s, group, workspace, ms, seen, merging).value.1 == seen + NamedIn(ms)
  {
    if ms != [] {
      var m := ms[|ms| - 1];
      NamedAreKnown(s, group, workspace, ms[..|ms| - 1], seen, merging);
      assert ms == ms[..|ms| - 1] + [m];
      assert NamedIn(ms) == NamedIn(ms[..|ms| - 1]) + if m.target.Named? then {m.target.id} else {};
    }
  }

  /** Every member added is new to the group; nothing else in the store changes. */
  lemma {:induction false} AddMembersIsGood(s: Store, group: nat, workspace: nat, ms: seq<Member>, seen: set<nat>, merging: bool)
    requires Good(s) && group in s.groups && s.groups[group].workspace == workspace
    requires seen == Values(RowsOf(s.rows, group)) && AddMembers(s, group, workspace, ms, seen, merging).Some?
    ensures var (t, known) := AddMembers(s, group, workspace, ms, seen, merging).value;
            && Good(t) && t.users == s.users && t.groups == s.groups && s.next <= t.next
            && known == Values(RowsOf(t.rows, group))
            && RowsOf(s.rows, group) <= RowsOf(t.rows, group)
            && (forall g | g != group :: RowsOf(t.rows, g) == RowsOf(s.rows, g))
            && (known == seen ==> t == s)
  {
    if ms != [] {
      var m := ms[|ms| - 1];
      AddMembersIsGood(s, group, workspace, ms[..|ms| - 1], seen, merging);
      var (u, known) := AddMembers(s, group, workspace, ms[..|ms| - 1], seen, merging).value;
      AddNextIsGood(u, group, workspace, m, known, merging);
      var (t, after) := AddNext(u, group, workspace, m, known, merging).value;
      assert seen <= known <= after;
    }
  }

  lemma AddNextIsGood(s: Store, group: nat, workspace: nat, m: Member, known: set<nat>, merging: bool)
    requires Good(s) && group in s.groups && s.groups[group].workspace == workspace
    requires known == Values(RowsOf(s.rows, group)) && AddNext(s, group, workspace, m, known, merging).Some?
    ensures var (t, after) := AddNext(s, group, workspace, m, known, merging).value;
            && Good(t) && t.users == s.users && t.groups == s.groups && s.next <= t.next
            && after == Values(RowsOf(t.rows, group)) && known <= after
            && RowsOf(s.rows, group) <= RowsOf(t.rows, group)
            && (forall g | g != group :: RowsOf(t.rows, g) == RowsOf(s.rows, g))
            && (after == known ==> t == s)
  {
    var (t, after) := AddNext(s, group, workspace, m, known, merging).value;
    if t != s {
      AddMemberIsGood(s, group, workspace, m);
      var row := t.rows[|s.rows|];
      forall g | g != group ensures RowsOf(t.rows, g) == RowsOf(s.rows, g) {
      }
    }
  }

  // ----- deleting rows

  function Delete(s: Store, keep: Membership -> bool): Store {
    s.(rows := Filter(s.rows, keep))
  }

  lemma DeleteIsGood(s: Store, keep: Membership -> bool)
    requires Good(s)
    ensures Good(Delete(s, keep))
  {
    FilterKeepsApart(s.rows, keep);
    forall m | m in Filter(s.rows, keep) ensures RowOk(s, m) {
      FilterMembers(s.rows, keep, m);
    }
  }

  function NotIn(group: nat): Membership -> bool {
    (m: Membership) => m.group != group
  }

  function NotMember(group: nat, value: nat): Membership -> bool {
    (m: Membership) => !(m.group == group && m.value == value)
  }

  function NotValue(value: nat): Membership -> bool {
    (m: Membership) => m.value != value
  }

  lemma {:induction false} NoRows(rows: seq<Membership>, group: nat)
    ensures RowsOf(Filter(rows, NotIn(group)), group) == []
    ensures forall g | g != group :: RowsOf(Filter(rows, NotIn(group)), g) == RowsOf(rows, g)
  {
    var none := (m: Membership) => false;
    FilterAnd(rows, NotIn(group), InGroup(group), none);
    NothingLeft(rows, none);
    forall g | g != group ensures RowsOf(Filter(rows, NotIn(group)), g) == RowsOf(rows, g) {
      FilterAnd(rows, NotIn(group), InGroup(g), InGroup(g));
    }
  }

  lemma {:induction false} NothingLeft(rows: seq<Membership>, keep: Membership -> bool)
    requires forall m :: !keep(m)
    ensures Filter(rows, keep) == []
  {
    if rows != [] {
      NothingLeft(rows[..|rows| - 1], keep);
    }
  }

  /** Deleting a member's row and dropping it from the list come to the same list. */
  lemma RemovalMirrors(rows: seq<Membership>, group: nat, value: nat)
    ensures RowsOf(Filter(rows, NotMember(group, value)), group) == Filter(RowsOf(rows, group), NotValue(value))
    ensures forall g | g != group :: RowsOf(Filter(rows, NotMember(group, value)), g) == RowsOf(rows, g)
  {
    var both := (m: Membership) => m.group == group && m.value != value;
    FilterAnd(rows, NotMember(group, value), InGroup(group), both);
    FilterAnd(rows, InGroup(group), NotValue(value), both);
    forall g | g != group ensures RowsOf(Filter(rows, NotMember(group, value)), g) == RowsOf(rows, g) {
      FilterAnd(rows, NotMember(group, value), InGroup(g), InGroup(g));
    }
  }

  // ----- giving a member its missing type

  function Retyped(m: Membership, id: nat, workspace: nat, t: string): Membership {
    if m.id == id && m.workspace == workspace then m.(mtype := Some(t)) else m
  }

  /** The row with the identifier gets the type. */
  function Retype(rows: seq<Membership>, id: nat, workspace: nat, t: string): (r: seq<Membership>)
    ensures |r| == |rows| && forall i | 0 <= i < |rows| :: r[i] == Retyped(rows[i], id, workspace, t)
  {
    seq(|rows|, i requires 0 <= i < |rows| => Retyped(rows[i], id, workspace, t))
  }

  lemma {:induction false} RetypeMirrors(rows: seq<Membership>, group: nat, id: nat, workspace: nat, t: string)
    ensures RowsOf(Retype(rows, id, workspace, t), group) == Retype(RowsOf(rows, group), id, workspace, t)
  {
    var all := Retype(rows, id, workspace, t);
    if rows != [] {
      var before, last := rows[..|rows| - 1], rows[|rows| - 1];
      RetypeMirrors(before, group, id, workspace, t);
      assert all[..|all| - 1] == Retype(before, id, workspace, t);
      assert all[|all| - 1] == Retyped(last, id, workspace, t);
    }
  }

  predicate Blank(t: Option<string>) {
    t.None? || TrimSpace(t.value) == ""
  }

  function FindMember(ms: seq<Membership>, value: nat): (i: nat)
    ensures i <= |ms|
    ensures i < |ms| ==> ms[i].value == value
    ensures i == |ms| ==> forall k | 0 <= k < |ms| :: ms[k].value != value
  {
    if ms == [] then 0 else if ms[0].value == value then 0 else 1 + FindMember(ms[1..], value)
  }

  predicate HasType(s: Store, id: nat, workspace: nat, t: string) {
    if t == "User" then id in s.users && s.users[id] == workspace
    else id in s.groups && s.groups[id].workspace == workspace
  }

  lemma OthersKeepType(s: Store, g: nat, m: Membership, workspace: nat, t: string)
    requires Good(s) && m in s.rows && m.group != g
    ensures RowsOf(Retype(s.rows, m.id, workspace, t), g) == RowsOf(s.rows, g)
  {
    RetypeMirrors(s.rows, g, m.id, workspace, t);
    var rows := RowsOf(s.rows, g);
    forall k | 0 <= k < |rows| ensures rows[k].id != m.id {
      FilterMembers(s.rows, InGroup(g), rows[k]);
      var j :| 0 <= j < |s.rows| && s.rows[j] == rows[k];
    }
    assert Retype(rows, m.id, workspace, t) == rows;
  }

  lemma RetypeIsGood(s: Store, group: nat, workspace: nat, i: nat, t: string)
    requires Good(s) && group in s.groups && s.groups[group].workspace == workspace && (t == "User" || t == "Group")
    requires i < |RowsOf(s.rows, group)| && HasType(s, RowsOf(s.rows, group)[i].value, workspace, t)
    ensures var ms := RowsOf(s.rows, group);
            var u := s.(rows := Retype(s.rows, ms[i].id, workspace, t));
            && Good(u) && RowsOf(u.rows, group) == ms[i := ms[i].(mtype := Some(t))]
            && forall g | g != group :: RowsOf(u.rows, g) == RowsOf(s.rows, g)
  {
    var ms := RowsOf(s.rows, group);
    var id := ms[i].id;
    var u := s.(rows := Retype(s.rows, id, workspace, t));
    FilterMembers(s.rows, InGroup(group), ms[i]);
    RetypeMirrors(s.rows, group, id, workspace, t);
    FilterKeepsApart(s.rows, InGroup(group));
    forall k | 0 <= k < |ms| ensures RowsOf(u.rows, group)[k] == ms[i := ms[i].(mtype := Some(t))][k] {
      FilterMembers(s.rows, InGroup(group), ms[k]);
      assert k < i ==> Apart(ms[k], ms[i]);
      assert i < k ==> Apart(ms[i], ms[k]);
    }
    forall g | g != group ensures RowsOf(u.rows, g) == RowsOf(s.rows, g) {
      OthersKeepType(s, g, ms[i], workspace, t);
    }
    forall a, b | 0 <= a < b < |u.rows| ensures Apart(u.rows[a], u.rows[b]) {
      assert Apart(s.rows[a], s.rows[b]);
    }
    forall m | m in u.rows ensures RowOk(u, m) {
      var k :| 0 <= k < |u.rows| && u.rows[k] == m;
      assert s.rows[k] in s.rows && RowOk(s, s.rows[k]);
    }
  }
}
