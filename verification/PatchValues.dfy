/**
 Writing the sub-attributes of one entry from a JSON value, and whether the flag that decides
 on demoting the other entries notices every way of making this one primary.
 */
module PatchValues {
  import opened Text
  import opened MultiValued

  /** A JSON value as the setters tell them apart; the members of an object are visited in any order, another one each time. */
  datatype Value<V> = Flag(b: bool) | Object(members: Members<V>) | Other(v: V)
  datatype Members<V> = Done | Member(name: string, value: Value<V>, rest: Members<V>)

  /** Writes a sub-attribute other than "primary" under its lower-case name; None is an error. */
  type Writer<!D, !V> = (D, string, Value<V>) -> Option<D>

  /** Without a name the value's members are written, whatever they are called. */
  function Assign<D, V>(write: Writer<D, V>, e: Entry<D>, name: string, value: Value<V>): Option<Entry<D>>
    decreases value
  {
    if name == "" then
      if value.Object? then AssignAll(write, e, value.members) else None
    else if EqualFold(name, "primary") then
      if value.Flag? then Some(e.(primary := value.b)) else None
    else
      match write(e.data, ToLower(name), value)
      case None => None
      case Some(d) => Some(e.(data := d))
  }

  function AssignAll<D, V>(write: Writer<D, V>, e: Entry<D>, members: Members<V>): Option<Entry<D>>
    decreases members
  {
    match members
    case Done => Some(e)
    case Member(name, value, rest) =>
      match Assign(write, e, name, value)
      case None => None
      case Some(e') => AssignAll(write, e', rest)
  }

  /** The flag that decides on demotion: it looks one object deep. */
  predicate SetsPrimaryTrue<V>(name: string, value: Value<V>) {
    if EqualFold(name, "primary") then value.Flag? && value.b
    else name == "" && value.Object? && HasTrue(value.members)
  }

  predicate HasTrue<V>(members: Members<V>) {
    match members
    case Done => false
    case Member(name, value, rest) => (EqualFold(name, "primary") && value.Flag? && value.b) || HasTrue(rest)
  }

  /** The last value given to the primary flag, however deep. */
  function Flagged<V>(name: string, value: Value<V>): Option<bool>
    decreases value
  {
    if name == "" then (if value.Object? then FlaggedAll(value.members) else None)
    else if EqualFold(name, "primary") && value.Flag? then Some(value.b)
    else None
  }

  function FlaggedAll<V>(members: Members<V>): Option<bool> {
    match members
    case Done => None
    case Member(name, value, rest) => if FlaggedAll(rest).Some? then FlaggedAll(rest) else Flagged(name, value)
  }

  lemma {:induction false} AssignFlags<D, V>(write: Writer<D, V>, e: Entry<D>, name: string, value: Value<V>)
    ensures match Assign(write, e, name, value)
            case None => true
            case Some(r) => r.primary == match Flagged(name, value) case None => e.primary case Some(b) => b
    decreases value
  {
    if name == "" && value.Object? {
      AssignAllFlags(write, e, value.members);
    }
  }

  lemma {:induction false} AssignAllFlags<D, V>(write: Writer<D, V>, e: Entry<D>, members: Members<V>)
    ensures match AssignAll(write, e, members)
            case None => true
            case Some(r) => r.primary == match FlaggedAll(members) case None => e.primary case Some(b) => b
    decreases members
  {
    match members
    case Done =>
    case Member(name, value, rest) =>
      AssignFlags(write, e, name, value);
      var e' := Assign(write, e, name, value);
      if e'.Some? {
        AssignAllFlags(write, e'.value, rest);
      }
  }

  // ----- any order of an object's members

  function Length<V>(members: Members<V>): nat {
    match members case Done => 0 case Member(_, _, rest) => 1 + Length(rest)
  }

  function Nth<V>(members: Members<V>, k: nat): (string, Value<V>)
    requires k < Length(members)
  {
    if k == 0 then (members.name, members.value) else Nth(members.rest, k - 1)
  }

  function LeavingOut<V>(members: Members<V>, k: nat): Members<V>
    requires k < Length(members)
  {
    if k == 0 then members.rest else Member(members.name, members.value, LeavingOut(members.rest, k - 1))
  }

  /** The same value, up to the order of members at any depth. */
  ghost predicate Reordered<V>(a: Value<V>, b: Value<V>)
    decreases a
  {
    match a
    case Object(members) => b.Object? && ReorderedAll(members, b.members)
    case _ => b == a
  }

  ghost predicate ReorderedAll<V>(a: Members<V>, b: Members<V>)
    decreases a
  {
    match a
    case Done => b.Done?
    case Member(name, value, rest) =>
      exists k | 0 <= k < Length(b) :: Nth(b, k).0 == name && Reordered(value, Nth(b, k).1) && ReorderedAll(rest, LeavingOut(b, k))
  }

  lemma {:induction false} SameValue<V>(value: Value<V>)
    ensures Reordered(value, value)
    decreases value
  {
    if value.Object? {
      SameMembers(value.members);
    }
  }

  lemma {:induction false} SameMembers<V>(members: Members<V>)
    ensures ReorderedAll(members, members)
    decreases members
  {
    if members.Member? {
      SameValue(members.value);
      SameMembers(members.rest);
      assert Nth(members, 0) == (members.name, members.value) && LeavingOut(members, 0) == members.rest;
    }
  }

  /** Some order of visits leaves the flag true. */
  predicate CanFlag<V>(name: string, value: Value<V>)
    decreases value
  {
    if name == "" then value.Object? && CanFlagAll(value.members)
    else EqualFold(name, "primary") && value.Flag? && value.b
  }

  predicate CanFlagAll<V>(members: Members<V>)
    decreases members
  {
    match members
    case Done => false
    case Member(name, value, rest) => CanFlag(name, value) || CanFlagAll(rest)
  }

  lemma {:induction false} OneOfMembers<V>(members: Members<V>, k: nat)
    requires k < Length(members)
    ensures var (name, value) := Nth(members, k);
            && (HasTrue(members) <==> (EqualFold(name, "primary") && value.Flag? && value.b) || HasTrue(LeavingOut(members, k)))
            && (CanFlagAll(members) <==> CanFlag(name, value) || CanFlagAll(LeavingOut(members, k)))
  {
    if k > 0 {
      OneOfMembers(members.rest, k - 1);
    }
  }

  /** Neither the demotion test nor what can come of the flag depends on the order. */
  lemma {:induction false} OrderIsIgnored<V>(name: string, a: Value<V>, b: Value<V>)
    requires Reordered(a, b)
    ensures SetsPrimaryTrue(name, a) == SetsPrimaryTrue(name, b) && CanFlag(name, a) == CanFlag(name, b)
    decreases a
  {
    if a.Object? {
      OrderOfMembersIsIgnored(a.members, b.members);
    }
  }

  lemma {:induction false} OrderOfMembersIsIgnored<V>(a: Members<V>, b: Members<V>)
    requires ReorderedAll(a, b)
    ensures HasTrue(a) == HasTrue(b) && CanFlagAll(a) == CanFlagAll(b)
    decreases a
  {
    if a.Member? {
      var k :| 0 <= k < Length(b) && Nth(b, k).0 == a.name && Reordered(a.value, Nth(b, k).1) && ReorderedAll(a.rest, LeavingOut(b, k));
      OrderIsIgnored(a.name, a.value, Nth(b, k).1);
      OrderOfMembersIsIgnored(a.rest, LeavingOut(b, k));
      OneOfMembers(b, k);
    }
  }

  lemma {:induction false} FlaggedCanBe<V>(name: string, value: Value<V>)
    ensures Flagged(name, value) == Some(true) ==> CanFlag(name, value)
    decreases value
  {
    if name == "" && value.Object? {
      FlaggedAllCanBe(value.members);
    }
  }

  lemma {:induction false} FlaggedAllCanBe<V>(members: Members<V>)
    ensures FlaggedAll(members) == Some(true) ==> CanFlagAll(members)
    decreases members
  {
    if members.Member? {
      FlaggedCanBe(members.name, members.value);
      FlaggedAllCanBe(members.rest);
    }
  }

  /** The order that visits a true flag last, at each depth. */
  function Truest<V>(name: string, value: Value<V>): Value<V>
    requires CanFlag(name, value)
    decreases value
  {
    if name == "" then Object(TruestAll(value.members)) else value
  }

  function TruestAll<V>(members: Members<V>): Members<V>
    requires CanFlagAll(members)
    decreases members
  {
    if CanFlagAll(members.rest) then Member(members.name, members.value, TruestAll(members.rest))
    else Append(members.rest, members.name, Truest(members.name, members.value))
  }

  function Append<V>(members: Members<V>, name: string, value: Value<V>): Members<V> {
    match members
    case Done => Member(name, value, Done)
    case Member(n, v, rest) => Member(n, v, Append(rest, name, value))
  }

  lemma {:induction false} LastIsAppended<V>(members: Members<V>, name: string, value: Value<V>)
    ensures var all := Append(members, name, value);
            && Length(all) == Length(members) + 1
            && Nth(all, Length(members)) == (name, value) && LeavingOut(all, Length(members)) == members
            && (Flagged(name, value).Some? ==> FlaggedAll(all) == Flagged(name, value))
  {
    if members.Member? {
      LastIsAppended(members.rest, name, value);
    }
  }

  lemma {:induction false} TruestFlags<V>(name: string, value: Value<V>)
    requires CanFlag(name, value)
    ensures Reordered(value, Truest(name, value)) && Flagged(name, Truest(name, value)) == Some(true)
    decreases value
  {
    if name == "" {
      TruestAllFlags(value.members);
    }
  }

  lemma {:induction false} TruestAllFlags<V>(members: Members<V>)
    requires CanFlagAll(members)
    ensures ReorderedAll(members, TruestAll(members)) && FlaggedAll(TruestAll(members)) == Some(true)
    decreases members
  {
    var Member(name, value, rest) := members;
    var all := TruestAll(members);
    if CanFlagAll(rest) {
      TruestAllFlags(rest);
      SameValue(value);
      assert Nth(all, 0) == (name, value) && LeavingOut(all, 0) == TruestAll(rest);
    } else {
      TruestFlags(name, value);
      LastIsAppended(rest, name, Truest(name, value));
      SameMembers(rest);
      assert Reordered(value, Nth(all, Length(rest)).1) && ReorderedAll(rest, LeavingOut(all, Length(rest)));
    }
  }

  // ----- values that are overlooked

  /** In some order the entry ends up primary, and the others are not demoted. */
  predicate Overlooked<V>(name: string, value: Value<V>) {
    !SetsPrimaryTrue(name, value) && CanFlag(name, value)
  }

  lemma OverlookedExactlyIf<V(!new)>(name: string, value: Value<V>)
    ensures Overlooked(name, value)
       <==> !SetsPrimaryTrue(name, value) && exists v :: Reordered(value, v) && Flagged(name, v) == Some(true)
  {
    if CanFlag(name, value) {
      TruestFlags(name, value);
    }
    forall v | Reordered(value, v) && Flagged(name, v) == Some(true)
      ensures CanFlag(name, value)
    {
      FlaggedCanBe(name, v);
      OrderIsIgnored(name, value, v);
    }
  }

  predicate HasEmptyName<V>(members: Members<V>) {
    match members
    case Done => false
    case Member(name, _, rest) => name == "" || HasEmptyName(rest)
  }

  /** That takes an object with a member whose name is empty, where no sub-attribute is named. */
  lemma OverlookedNeedsEmptyName<V>(name: string, value: Value<V>)
    requires Overlooked(name, value)
    ensures name == "" && value.Object? && HasEmptyName(value.members)
  {
    if name == "" && value.Object? && !HasEmptyName(value.members) {
      FlatIsNoticed(value.members);
    }
  }

  lemma {:induction false} FlatIsNoticed<V>(members: Members<V>)
    requires !HasEmptyName(members)
    ensures CanFlagAll(members) ==> HasTrue(members)
  {
    if members.Member? {
      FlatIsNoticed(members.rest);
      var Member(name, value, rest) := members;
      assert CanFlag(name, value) ==> EqualFold(name, "primary") && value.Flag? && value.b;
    }
  }

  /** How the value's members are visited when an entry is written; entries that differ may differ in this too. */
  type Order<!D, !V> = Entry<D> -> Value<V>

  function NotPrimary<D>(): Entry<D> -> bool {
    (e: Entry<D>) => !e.primary
  }

  function Always<D, V>(value: Value<V>): Order<D, V> {
    (e: Entry<D>) => value
  }

  ghost predicate Orders<D(!new), V>(value: Value<V>, order: Order<D, V>) {
    forall e :: Reordered(value, order(e))
  }

  function SetterOf<D, V>(write: Writer<D, V>, name: string, order: Order<D, V>): Setter<D> {
    (e: Entry<D>) => Assign(write, e, name, order(e))
  }

  lemma NoticedIsCareful<D(!new), V>(write: Writer<D, V>, name: string, value: Value<V>, order: Order<D, V>)
    requires !Overlooked(name, value) && Orders(value, order)
    ensures Careful(SetterOf(write, name, order), SetsPrimaryTrue(name, value))
  {
    forall e: Entry<D> | Assign(write, e, name, order(e)).Some?
      ensures Assign(write, e, name, order(e)).value.primary ==> e.primary || SetsPrimaryTrue(name, value)
    {
      AssignFlags(write, e, name, order(e));
      FlaggedCanBe(name, order(e));
      OrderIsIgnored(name, value, order(e));
    }
  }

  /**
   A filtered update keeps at most one primary entry in every collection, whatever the filter and
   in whatever order members are visited, exactly if it is not overlooked. The witnesses are two
   entries that stay distinct.
   */
  lemma UpdateKeepsOnePrimaryExactlyIf<D(!new), K, V(!new)>(
    key: D -> K, write: Writer<D, V>, name: string, value: Value<V>, one: D, two: D)
    requires forall v | Reordered(value, v) :: StaysApart(key, write, name, v, one, two)
    ensures !Overlooked(name, value) <==>
            forall s, matches: Entry<D> -> bool, order: Order<D, V> |
              Good(key, s) && Orders(value, order) && MayUpdate(key, s, matches, write, name, value, order) ::
              Good(key, Update(key, s, matches, SetterOf(write, name, order), SetsPrimaryTrue(name, value)).value)
  {
    if Overlooked(name, value) {
      var v := Truest(name, value);
      var order: Order<D, V> := Always(v);
      TruestFlags(name, value);
      OverlookedBreaks(key, write, name, v, SetsPrimaryTrue(name, value), one, two);
      var s := [Entry(one, false), Entry(two, true)];
      assert Orders(value, order) && MayUpdate(key, s, NotPrimary(), write, name, value, order);
    } else {
      forall s, matches: Entry<D> -> bool, order: Order<D, V> |
        Good(key, s) && Orders(value, order) && MayUpdate(key, s, matches, write, name, value, order)
        ensures Good(key, Update(key, s, matches, SetterOf(write, name, order), SetsPrimaryTrue(name, value)).value)
      {
        NoticedIsCareful(write, name, value, order);
        UpdateIsGood(key, s, matches, SetterOf(write, name, order), SetsPrimaryTrue(name, value));
      }
    }
  }

  predicate StaysApart<D, K(==), V>(key: D -> K, write: Writer<D, V>, name: string, value: Value<V>, one: D, two: D) {
    var r := Assign(write, Entry(one, false), name, value);
    r.Some? && key(one) != key(two) && key(r.value.data) != key(two)
  }

  ghost predicate MayUpdate<D, K, V>(key: D -> K, s: seq<Entry<D>>, matches: Entry<D> -> bool,
    write: Writer<D, V>, name: string, value: Value<V>, order: Order<D, V>)
  {
    Update(key, s, matches, SetterOf(write, name, order), SetsPrimaryTrue(name, value)).Some?
  }

  /** Two primary entries after setting the one that is not primary. */
  lemma OverlookedBreaks<D, K, V>(key: D -> K, write: Writer<D, V>, name: string, value: Value<V>, demote: bool, one: D, two: D)
    requires !demote && Flagged(name, value) == Some(true) && StaysApart(key, write, name, value, one, two)
    ensures var s := [Entry(one, false), Entry(two, true)];
            var r := Update(key, s, NotPrimary(), SetterOf(write, name, Always(value)), demote);
            Good(key, s) && r.Some? && !OnePrimary(r.value)
  {
    var s := [Entry(one, false), Entry(two, true)];
    var matches := NotPrimary<D>();
    var setter := SetterOf(write, name, Always(value));
    AssignFlags(write, Entry(one, false), name, value);
    var changed := Assign(write, Entry(one, false), name, value).value;
    var t := [changed, Entry(two, true)];
    assert s[0 := changed] == t;
    assert ChangeUpTo(s, 1, matches, setter, false) == Some((t, true)) by {
      assert ChangeUpTo(s, 0, matches, setter, false) == Some((s, false));
    }
    assert ChangeUpTo(s, 2, matches, setter, false) == Some((t, true));
    DistinctIsKept(key, t);
    assert t[0].primary && t[1].primary;
  }

  /** Such a value exists: an object whose only member has an empty name and holds "primary": true. */
  lemma OverlookedExists<V>()
    ensures Overlooked<V>("", Object(Member("", Object(Member("primary", Flag(true), Done)), Done)))
  {
    var inner: Members<V> := Member("primary", Flag(true), Done);
    assert CanFlagAll(inner);
    assert CanFlag("", Object(inner));
    var outer: Members<V> := Member("", Object(inner), Done);
    assert CanFlagAll(outer);
    assert !HasTrue(outer);
  }
}
