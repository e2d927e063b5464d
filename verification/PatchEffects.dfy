/**
 What each operation of a PATCH leaves in the attribute it is on, from the attribute as it was
 and the values given; and what writing one entry writes.
 */
module PatchEffects {
  import opened Text
  import opened MultiValued
  import opened PatchValues
  import opened PatchUser

  // ----- lists

  /** The first entry of each key in order, primary if any entry of its key is. */
  ghost predicate IsFirstOfEach<D, K>(key: D -> K, r: seq<Entry<D>>, all: seq<Entry<D>>) {
    && Distinct(key, r)
    && (forall i | 0 <= i < |r| :: HasKey(key, all, key(r[i].data)))
    && (forall i | 0 <= i < |all| :: HasKey(key, r, key(all[i].data)))
    && |r| == |Firsts(key, all)|
    && forall i | 0 <= i < |r| :: r[i] == Entry(Firsts(key, all)[i], SomePrimary(key, all, key(r[i].data)))
  }

  /** The incoming entries can all be built, and at most one of them is primary. */
  ghost predicate Acceptable<D>(items: seq<Item<D>>) {
    && (forall i | 0 <= i < |items| :: items[i].data.Some?)
    && (forall i, j | 0 <= i < j < |items| :: !(items[i].primary && items[j].primary))
  }

  function Built<D>(items: seq<Item<D>>): (s: seq<Entry<D>>)
    requires forall i | 0 <= i < |items| :: items[i].data.Some?
    ensures |s| == |items| && forall i | 0 <= i < |items| :: s[i] == Entry(items[i].data.value, items[i].primary)
  {
    seq(|items|, i requires 0 <= i < |items| => Entry(items[i].data.value, items[i].primary))
  }

  lemma {:induction false} CountIsAtMostOne<D>(items: seq<Item<D>>)
    ensures PrimaryCount(items) == 0 <==> forall i | 0 <= i < |items| :: !items[i].primary
    ensures PrimaryCount(items) <= 1 <==> forall i, j | 0 <= i < j < |items| :: !(items[i].primary && items[j].primary)
  {
    if items != [] {
      var before, last := items[..|items| - 1], items[|items| - 1];
      CountIsAtMostOne(before);
      assert forall i | 0 <= i < |before| :: items[i] == before[i];
      if last.primary && PrimaryCount(before) > 0 {
        var i :| 0 <= i < |before| && before[i].primary;
        assert items[i].primary && items[|before|].primary;
      }
    }
  }

  lemma {:induction false} BuiltIsBuildAll<D>(items: seq<Item<D>>)
    ensures BuildAll(items).Some? <==> forall i | 0 <= i < |items| :: items[i].data.Some?
    ensures BuildAll(items).Some? ==> BuildAll(items).value == Built(items)
  {
    if items != [] {
      BuiltIsBuildAll(items[..|items| - 1]);
    }
  }

  lemma AcceptExactlyIf<D>(items: seq<Item<D>>)
    ensures Accept(items).Some? <==> Acceptable(items)
    ensures Accept(items).Some? ==> Accept(items).value == Built(items) && OnePrimary(Built(items))
  {
    CountIsAtMostOne(items);
    BuiltIsBuildAll(items);
  }

  lemma DedupIsFirstOfEach<D, K>(key: D -> K, all: seq<Entry<D>>)
    ensures IsFirstOfEach(key, Dedup(key, all), all)
  {
    DedupIsFirsts(key, all);
    var r := Dedup(key, all);
    forall i | 0 <= i < |r|
      ensures HasKey(key, all, key(r[i].data))
    {
      assert HasKey(key, r, key(r[i].data));
    }
    forall i | 0 <= i < |all|
      ensures HasKey(key, r, key(all[i].data))
    {
      assert HasKey(key, all, key(all[i].data));
    }
  }

  /** A list is taken in after the entries there, which give up their flag to a primary one. */
  lemma AddedIsFirstOfEach<D, K>(key: D -> K, s: seq<Entry<D>>, given: seq<Entry<D>>)
    requires OnePrimary(given)
    ensures IsFirstOfEach(key, MultiValued.Add(key, s, given), (if exists i | 0 <= i < |given| :: given[i].primary then Demote(s) else s) + given)
  {
    AppendAllSplits(key, s, given);
    DedupIsFirstOfEach(key, AppendAll(s, given));
  }

  // ----- each operation

  /** Only the attribute changes. */
  ghost predicate OnlyList<D, F>(p: Profile<D, F>, q: Profile<D, F>, at: nat) {
    && |q.lists| == |p.lists| && q.fields == p.fields
    && forall i | 0 <= i < |p.lists| && i != at :: q.lists[i] == p.lists[i]
  }

  /** An add takes the given entries in after those there; a primary one takes the flag from them. */
  lemma AddTakesIn<D, K, V, F>(server: Server<D, K, V, F>, at: nat, items: Option<seq<Item<D>>>, p: Profile<D, F>)
    requires |p.lists| == COUNT && at < COUNT
    ensures var r := Apply(server, Op.Add(at, items), p);
            && (r.Some? <==> items.Some? && Acceptable(items.value))
            && (r.Some? ==>
                  && OnlyList(p, r.value, at)
                  && var given := Built(items.value);
                     IsFirstOfEach(server.key(at), r.value.lists[at],
                                   (if exists i | 0 <= i < |given| :: given[i].primary then Demote(p.lists[at]) else p.lists[at]) + given))
  {
    if items.Some? {
      AcceptExactlyIf(items.value);
      if Accept(items.value).Some? {
        AddedIsFirstOfEach(server.key(at), p.lists[at], Built(items.value));
      }
    }
  }

  /** A replacement leaves the given entries and nothing of what was there; null leaves none. */
  lemma ReplaceSets<D, K, V, F>(server: Server<D, K, V, F>, at: nat, given: Option<Option<seq<Item<D>>>>, p: Profile<D, F>)
    requires |p.lists| == COUNT && at < COUNT
    ensures var r := Apply(server, Op.Replace(at, given), p);
            && (r.Some? <==> given.None? || (given.value.Some? && Acceptable(given.value.value)))
            && (r.Some? ==>
                  && OnlyList(p, r.value, at)
                  && (given.None? ==> r.value.lists[at] == [])
                  && (given.Some? ==> IsFirstOfEach(server.key(at), r.value.lists[at], Built(given.value.value))))
  {
    if given.Some? {
      TakenAlone(server.key(at), given.value);
    }
  }

  /** What a list comes to where nothing was before. */
  lemma TakenAlone<D, K>(key: D -> K, items: Option<seq<Item<D>>>)
    ensures AddTo(key, [], items).Some? <==> items.Some? && Acceptable(items.value)
    ensures AddTo(key, [], items).Some? ==> IsFirstOfEach(key, AddTo(key, [], items).value, Built(items.value))
  {
    if items.Some? {
      AcceptExactlyIf(items.value);
      if Accept(items.value).Some? {
        AppendedToNothing(key, Built(items.value));
        DedupIsFirstOfEach(key, Built(items.value));
      }
    }
  }

  lemma AppendedToNothing<D, K>(key: D -> K, given: seq<Entry<D>>)
    requires OnePrimary(given)
    ensures AppendAll([], given) == given
  {
    AppendAllSplits(key, [], given);
    assert Demote<D>([]) == [];
  }

  /** Two users that differ in the attribute alone are the same after it is replaced. */
  lemma ReplaceForgets<D, K, V, F>(server: Server<D, K, V, F>, at: nat, given: Option<Option<seq<Item<D>>>>, p: Profile<D, F>, q: Profile<D, F>)
    requires |p.lists| == COUNT && at < COUNT && OnlyList(p, q, at)
    ensures Apply(server, Op.Replace(at, given), p) == Apply(server, Op.Replace(at, given), q)
    ensures Apply(server, Op.Clear(at), p) == Apply(server, Op.Clear(at), q)
  {
    var list := if given.None? then Some([]) else AddTo(server.key(at), [], given.value);
    SameBesides(p, q, at, list);
    SameBesides(p, q, at, Some([]));
  }

  lemma SameBesides<D, F>(p: Profile<D, F>, q: Profile<D, F>, at: nat, list: Option<seq<Entry<D>>>)
    requires at < |p.lists| && OnlyList(p, q, at)
    ensures WithList(p, at, list) == WithList(q, at, list)
  {
    if list.Some? {
      assert p.lists[at := list.value] == q.lists[at := list.value];
    }
  }

  lemma ClearEmpties<D, K, V, F>(server: Server<D, K, V, F>, at: nat, p: Profile<D, F>)
    requires |p.lists| == COUNT && at < COUNT
    ensures var r := Apply(server, Op.Clear(at), p); r.Some? && OnlyList(p, r.value, at) && r.value.lists[at] == []
  {
  }

  /** The entries at these places, which are all that are not dropped, in their order. */
  ghost predicate Picked<D>(s: seq<Entry<D>>, r: seq<Entry<D>>, kept: seq<nat>, drops: Entry<D> -> bool) {
    && |r| == |kept|
    && (forall k | 0 <= k < |kept| :: kept[k] < |s| && r[k] == s[kept[k]] && !drops(r[k]))
    && (forall j, k | 0 <= j < k < |kept| :: kept[j] < kept[k])
    && (forall i | 0 <= i < |s| && !drops(s[i]) :: i in kept)
  }

  lemma {:induction false} WithoutPicks<D>(s: seq<Entry<D>>, drops: Entry<D> -> bool) returns (kept: seq<nat>)
    ensures Picked(s, MultiValued.Without(s, drops), kept, drops)
  {
    kept := [];
    if s != [] {
      var before := WithoutPicks(s[..|s| - 1], drops);
      PickedGrows(s, MultiValued.Without(s[..|s| - 1], drops), before, drops);
      kept := if drops(s[|s| - 1]) then before else before + [|s| - 1];
      assert drops(s[|s| - 1]) ==> MultiValued.Without(s, drops) == MultiValued.Without(s[..|s| - 1], drops);
    }
  }

  lemma PickedGrows<D>(s: seq<Entry<D>>, r: seq<Entry<D>>, kept: seq<nat>, drops: Entry<D> -> bool)
    requires s != [] && Picked(s[..|s| - 1], r, kept, drops)
    ensures if drops(s[|s| - 1]) then Picked(s, r, kept, drops) else Picked(s, r + [s[|s| - 1]], kept + [|s| - 1], drops)
  {
    var n, longer := |s| - 1, kept + [|s| - 1];
    assert longer[|kept|] == n;
    forall i | 0 <= i < n && !drops(s[i])
      ensures i in kept && i in longer
    {
      assert s[..n][i] == s[i];
    }
  }

  /** A removal leaves exactly the entries that do not match, in their order. */
  lemma RemoveDrops<D, K, V, F>(server: Server<D, K, V, F>, at: nat, drops: Entry<D> -> bool, p: Profile<D, F>) returns (kept: seq<nat>)
    requires |p.lists| == COUNT && at < COUNT
    ensures var r := Apply(server, Op.Remove(at, drops), p);
            r.Some? && OnlyList(p, r.value, at) && Picked(p.lists[at], r.value.lists[at], kept, drops)
  {
    kept := WithoutPicks(p.lists[at], drops);
  }

  /** Anything else leaves all collections alone. */
  lemma SingleChangesFields<D, K, V, F>(server: Server<D, K, V, F>, change: F -> Option<F>, p: Profile<D, F>)
    requires |p.lists| == COUNT
    ensures var r := Apply(server, Op.Single(change), p);
            && (r.Some? <==> change(p.fields).Some?)
            && (r.Some? ==> r.value.lists == p.lists && change(p.fields) == Some(r.value.fields))
  {
  }

  // ----- filtered updates

  /** Entry i as it is when its turn comes: without its flag if one before it was written and took it. */
  ghost function Seen<D>(s: seq<Entry<D>>, demote: bool, written: set<nat>, i: nat): Entry<D>
    requires i < |s|
  {
    if demote && Earlier(written, i) then s[i].(primary := false) else s[i]
  }

  ghost predicate Earlier(written: set<nat>, i: nat) {
    exists j :: j in written && j < i
  }

  /** Entry i in the end: written or not, and without its flag if another one took it later. */
  ghost predicate Left<D>(s: seq<Entry<D>>, write: Setter<D>, demote: bool, written: set<nat>, i: nat, e: Entry<D>)
    requires i < |s|
  {
    && (i in written ==> write(Seen(s, demote, written, i)).Some?)
    && var now := if i in written then write(Seen(s, demote, written, i)).value else s[i];
       e == if demote && exists j :: j in written && j != i && (i in written ==> i < j) then now.(primary := false) else now
  }

  /** Exactly the entries that match in their turn are written. */
  ghost predicate WrittenAre<D>(s: seq<Entry<D>>, n: nat, matches: Entry<D> -> bool, demote: bool, written: set<nat>)
    requires n <= |s|
  {
    forall i :: i in written <==> 0 <= i < n && matches(Seen(s, demote, written, i))
  }

  lemma SeenGrows<D>(s: seq<Entry<D>>, demote: bool, written: set<nat>, n: nat)
    requires n < |s| && forall j | j in written :: j < n
    ensures forall i | 0 <= i <= n :: Seen(s, demote, written + {n}, i) == Seen(s, demote, written, i)
  {
    forall i | 0 <= i <= n
      ensures Earlier(written + {n}, i) <==> Earlier(written, i)
    {
      if j :| j in written + {n} && j < i {
        assert j in written;
      }
      if j :| j in written && j < i {
        assert j in written + {n};
      }
    }
  }

  lemma WrittenGrows<D>(s: seq<Entry<D>>, n: nat, matches: Entry<D> -> bool, demote: bool, written: set<nat>)
    requires n < |s| && WrittenAre(s, n, matches, demote, written)
    ensures WrittenAre(s, n + 1, matches, demote, if matches(Seen(s, demote, written, n)) then written + {n} else written)
  {
    SeenGrows(s, demote, written, n);
  }

  /** What the first n entries have come to when exactly those in written were. */
  ghost predicate Changed<D>(s: seq<Entry<D>>, n: nat, matches: Entry<D> -> bool, write: Setter<D>, demote: bool,
                             t: seq<Entry<D>>, found: bool, written: set<nat>)
  {
    && n <= |s| == |t| && WrittenAre(s, n, matches, demote, written) && (found <==> written != {})
    && forall i | 0 <= i < |s| :: Left(s, write, demote, written, i, t[i])
  }

  lemma ChangeNext<D>(s: seq<Entry<D>>, n: nat, matches: Entry<D> -> bool, write: Setter<D>, demote: bool,
                      t: seq<Entry<D>>, found: bool, written: set<nat>)
    requires n < |s| && Changed(s, n, matches, write, demote, t, found, written)
    ensures !matches(t[n]) ==> Changed(s, n + 1, matches, write, demote, t, found, written)
    ensures matches(t[n]) && Change(t, n, write, demote).Some? ==>
              Changed(s, n + 1, matches, write, demote, Change(t, n, write, demote).value, true, written + {n})
  {
    TurnComes(s, n, write, demote, written, t);
    WrittenGrows(s, n, matches, demote, written);
    if matches(t[n]) && Change(t, n, write, demote).Some? {
      OneMoreWritten(s, n, write, demote, written, t, Change(t, n, write, demote).value);
      assert n in written + {n};
    }
  }

  lemma {:induction false} ChangeUpToWrites<D>(s: seq<Entry<D>>, n: nat, matches: Entry<D> -> bool, write: Setter<D>, demote: bool) returns (written: set<nat>)
    requires n <= |s| && ChangeUpTo(s, n, matches, write, demote).Some?
    ensures var (t, found) := ChangeUpTo(s, n, matches, write, demote).value; Changed(s, n, matches, write, demote, t, found, written)
  {
    if n == 0 {
      written := {};
    } else {
      written := ChangeUpToWrites(s, n - 1, matches, write, demote);
      var (t, found) := ChangeUpTo(s, n - 1, matches, write, demote).value;
      ChangeNext(s, n - 1, matches, write, demote, t, found, written);
      if matches(t[n - 1]) {
        written := written + {n - 1};
      }
    }
  }

  lemma TurnComes<D>(s: seq<Entry<D>>, n: nat, write: Setter<D>, demote: bool, written: set<nat>, t: seq<Entry<D>>)
    requires n < |s| == |t| && (forall j | j in written :: j < n) && Left(s, write, demote, written, n, t[n])
    ensures t[n] == Seen(s, demote, written, n)
  {
    if j :| j in written && j != n {
      assert j < n;
    }
  }

  lemma OneMoreWritten<D>(s: seq<Entry<D>>, n: nat, write: Setter<D>, demote: bool, written: set<nat>, t: seq<Entry<D>>, u: seq<Entry<D>>)
    requires n < |s| == |t| && (forall j | j in written :: j < n) && t[n] == Seen(s, demote, written, n)
    requires forall i | 0 <= i < |s| :: Left(s, write, demote, written, i, t[i])
    requires Change(t, n, write, demote) == Some(u)
    ensures forall i | 0 <= i < |s| :: Left(s, write, demote, written + {n}, i, u[i])
  {
    SeenGrows(s, demote, written, n);
    forall i | 0 <= i < |s|
      ensures Left(s, write, demote, written + {n}, i, u[i])
    {
      assert Left(s, write, demote, written, i, t[i]);
      assert n in written + {n};
      if i < n && i in written {
        assert Seen(s, demote, written + {n}, i) == Seen(s, demote, written, i);
      }
      if !demote {
        assert u[i] == if i == n then write(t[n]).value else t[i];
      }
    }
  }

  /**
   A filtered update writes the value into exactly the entries that match in their turn, of which
   there is one; what is written true as primary takes the flag from all others.
   */
  lemma UpdateWrites<D, K, V, F>(server: Server<D, K, V, F>, at: nat, matches: Entry<D> -> bool, name: string, value: Value<V>,
                                 order: Order<D, V>, p: Profile<D, F>) returns (written: set<nat>, changed: seq<Entry<D>>)
    requires |p.lists| == COUNT && at < COUNT && Apply(server, Op.Update(at, Some(matches), name, value, order), p).Some?
    ensures var r := Apply(server, Op.Update(at, Some(matches), name, value, order), p).value;
            var demote := SetsPrimaryTrue(name, value);
            && OnlyList(p, r, at) && IsFirstOfEach(server.key(at), r.lists[at], changed)
            && written != {} && WrittenAre(p.lists[at], |p.lists[at]|, matches, demote, written)
            && |changed| == |p.lists[at]|
            && forall i | 0 <= i < |changed| ::
                 Left(p.lists[at], (e: Entry<D>) => Assign(server.write(at), e, name, order(e)), demote, written, i, changed[i])
  {
    var s, write, demote := p.lists[at], SetterOf(server.write(at), name, order), SetsPrimaryTrue(name, value);
    written := ChangeUpToWrites(s, |s|, matches, write, demote);
    changed := ChangeUpTo(s, |s|, matches, write, demote).value.0;
    DedupIsFirstOfEach(server.key(at), changed);
  }

  /** Without a filter, or with one that nothing matches, a filtered update is an error. */
  lemma UpdateNeedsMatch<D, K, V, F>(server: Server<D, K, V, F>, at: nat, matches: Option<Entry<D> -> bool>, name: string, value: Value<V>,
                                     order: Order<D, V>, p: Profile<D, F>)
    requires |p.lists| == COUNT && at < COUNT
    requires matches.Some? ==> forall i | 0 <= i < |p.lists[at]| :: !matches.value(p.lists[at][i])
    ensures Apply(server, Op.Update(at, matches, name, value, order), p) == None
  {
    if matches.Some? {
      var s, write, demote := p.lists[at], SetterOf(server.write(at), name, order), SetsPrimaryTrue(name, value);
      if ChangeUpTo(s, |s|, matches.value, write, demote).Some? {
        var written := ChangeUpToWrites(s, |s|, matches.value, write, demote);
        NothingWritten(s, matches.value, demote, written);
      }
    }
  }

  lemma NothingWritten<D>(s: seq<Entry<D>>, matches: Entry<D> -> bool, demote: bool, written: set<nat>)
    requires WrittenAre(s, |s|, matches, demote, written) && forall i | 0 <= i < |s| :: !matches(s[i])
    ensures written == {}
  {
    if written != {} {
      var j :| j in written;
      FirstWritten(s, matches, demote, written, j);
    }
  }

  lemma {:induction false} FirstWritten<D>(s: seq<Entry<D>>, matches: Entry<D> -> bool, demote: bool, written: set<nat>, j: nat)
    requires WrittenAre(s, |s|, matches, demote, written) && j in written
    ensures exists i :: 0 <= i < |s| && matches(s[i])
  {
    if i :| i in written && i < j {
      FirstWritten(s, matches, demote, written, i);
    } else {
      assert matches(Seen(s, demote, written, j));
      assert Seen(s, demote, written, j) == s[j];
    }
  }

  /** The object has a member called "primary", whatever its case, that is true. */
  predicate HoldsTruePrimary<V>(members: Members<V>) {
    exists k | 0 <= k < Length(members) :: ToLower(Nth(members, k).0) == "primary" && Nth(members, k).1 == Flag(true)
  }

  lemma {:induction false} HasTrueExactlyIf<V>(members: Members<V>)
    ensures HasTrue(members) <==> HoldsTruePrimary(members)
  {
    assert ToLower("primary") == "primary";
    if members.Member? {
      HasTrueExactlyIf(members.rest);
      if HoldsTruePrimary(members.rest) {
        var k :| 0 <= k < Length(members.rest) && ToLower(Nth(members.rest, k).0) == "primary" && Nth(members.rest, k).1 == Flag(true);
        assert Nth(members, k + 1) == Nth(members.rest, k);
      }
      if HoldsTruePrimary(members) {
        var k :| 0 <= k < Length(members) && ToLower(Nth(members, k).0) == "primary" && Nth(members, k).1 == Flag(true);
        assert k > 0 ==> Nth(members, k) == Nth(members.rest, k - 1);
      }
      assert Nth(members, 0) == (members.name, members.value);
    }
  }

  /** Others are demoted exactly if the value sets "primary" itself to true, or is an object without a name with a member that does. */
  lemma DemotesExactlyIf<V>(name: string, value: Value<V>)
    ensures SetsPrimaryTrue(name, value) <==>
              || (ToLower(name) == "primary" && value == Flag(true))
              || (name == "" && value.Object? && HoldsTruePrimary(value.members))
  {
    assert ToLower("primary") == "primary" && |ToLower("")| == 0;
    if value.Object? {
      HasTrueExactlyIf(value.members);
    }
  }

  // ----- what is written into one entry

  /** One sub-attribute to write. */
  datatype Part<V> = Part(name: string, value: Value<V>)

  /** The named parts of a value, however deep under empty names, in the order they are visited. */
  function Parts<V>(name: string, value: Value<V>): seq<Part<V>>
    decreases value
  {
    if name == "" && value.Object? then PartsOfAll(value.members) else [Part(name, value)]
  }

  function PartsOfAll<V>(members: Members<V>): seq<Part<V>>
    decreases members
  {
    match members
    case Done => []
    case Member(name, value, rest) => Parts(name, value) + PartsOfAll(rest)
  }

  /** One part: the flag, or another sub-attribute by its lower-case name; without a name it is an error. */
  function WriteOne<D, V>(write: Writer<D, V>, e: Entry<D>, part: Part<V>): Option<Entry<D>> {
    if part.name == "" then None
    else if EqualFold(part.name, "primary") then
      match part.value
      case Flag(b) => Some(Entry(e.data, b))
      case _ => None
    else
      match write(e.data, ToLower(part.name), part.value)
      case None => None
      case Some(d) => Some(Entry(d, e.primary))
  }

  function WriteAll<D, V>(write: Writer<D, V>, e: Entry<D>, parts: seq<Part<V>>): Option<Entry<D>>
    decreases |parts|
  {
    if parts == [] then Some(e)
    else
      match WriteOne(write, e, parts[0])
      case None => None
      case Some(r) => WriteAll(write, r, parts[1..])
  }

  lemma {:induction false} WriteBoth<D, V>(write: Writer<D, V>, e: Entry<D>, a: seq<Part<V>>, b: seq<Part<V>>)
    ensures WriteAll(write, e, a + b)
         == match WriteAll(write, e, a) case None => None case Some(r) => WriteAll(write, r, b)
    decreases |a|
  {
    if a == [] {
      assert a + b == b;
    } else {
      assert (a + b)[0] == a[0] && (a + b)[1..] == a[1..] + b;
      var r := WriteOne(write, e, a[0]);
      if r.Some? {
        WriteBoth(write, r.value, a[1..], b);
      }
    }
  }

  /** Writing a value writes each of its named parts, one after the other, and fails exactly if one of them does. */
  lemma {:induction false} AssignWritesParts<D, V>(write: Writer<D, V>, e: Entry<D>, name: string, value: Value<V>)
    ensures Assign(write, e, name, value) == WriteAll(write, e, Parts(name, value))
    decreases value
  {
    if name == "" && value.Object? {
      AssignAllWritesParts(write, e, value.members);
    } else {
      var part := Part(name, value);
      assert [part][1..] == [];
      assert WriteAll(write, e, [part]) == WriteOne(write, e, part);
    }
  }

  lemma {:induction false} AssignAllWritesParts<D, V>(write: Writer<D, V>, e: Entry<D>, members: Members<V>)
    ensures AssignAll(write, e, members) == WriteAll(write, e, PartsOfAll(members))
    decreases members
  {
    match members
    case Done =>
    case Member(name, value, rest) =>
      AssignWritesParts(write, e, name, value);
      WriteBoth(write, e, Parts(name, value), PartsOfAll(rest));
      var r := Assign(write, e, name, value);
      if r.Some? {
        AssignAllWritesParts(write, r.value, rest);
      }
  }

  // ----- the request

  /**
   A PATCH is refused exactly if it is for another version, has no operations, one of them fails, or it
   changes the user and the new name is taken.
   */
  lemma PatchedExactlyIf<D, K, V, F>(server: Server<D, K, V, F>, row: Row<D, F>, ifMatch: Option<nat>, ops: seq<Op<D, V, F>>)
    requires |row.profile.lists| == COUNT && Ops(ops)
    ensures Patched(server, row, ifMatch, ops).Some? <==>
              && (ifMatch == None || ifMatch == Some(row.version)) && |ops| > 0 && Run(server, ops, row.profile).Some?
              && var p := Run(server, ops, row.profile).value;
                 p.(fields := server.resolve(p.fields)) == row.profile || !server.conflict(row.profile.fields, server.resolve(p.fields))
  {
  }

  /** Operations run one after the other, and the first that fails fails all. */
  lemma RunsInOrder<D, K, V, F>(server: Server<D, K, V, F>, ops: seq<Op<D, V, F>>, op: Op<D, V, F>, p: Profile<D, F>)
    requires |p.lists| == COUNT && Ops(ops) && OnList(op)
    ensures Run(server, [], p) == Some(p)
    ensures Ops(ops + [op])
    ensures Run(server, ops + [op], p) == match Run(server, ops, p) case None => None case Some(q) => Apply(server, op, q)
  {
    assert (ops + [op])[..|ops|] == ops;
  }

  /** A full replacement takes each list given as it is, but for repetitions, and empties the others. */
  ghost predicate ListsGiven<D, K>(key: nat -> (D -> K), given: seq<Option<seq<Item<D>>>>, lists: seq<seq<Entry<D>>>) {
    && |lists| == |given|
    && forall at: nat | at < |given| ::
         match given[at]
         case None => lists[at] == []
         case Some(items) => Acceptable(items) && IsFirstOfEach(key(at), lists[at], Built(items))
  }

  lemma ListsGivenGrows<D, K>(key: nat -> (D -> K), before: seq<Option<seq<Item<D>>>>, lists: seq<seq<Entry<D>>>,
                              last: Option<seq<Item<D>>>, list: seq<Entry<D>>)
    requires ListsGiven(key, before, lists)
    requires match last case None => list == [] case Some(items) => Acceptable(items) && IsFirstOfEach(key(|before|), list, Built(items))
    ensures ListsGiven(key, before + [last], lists + [list])
  {
  }

  predicate Taken<D>(list: Option<seq<Item<D>>>) {
    list.Some? ==> Accept(list.value).Some?
  }

  lemma AllTaken<D>(before: seq<Option<seq<Item<D>>>>, last: Option<seq<Item<D>>>)
    ensures (forall list | list in before + [last] :: Taken(list)) <==> (forall list | list in before :: Taken(list)) && Taken(last)
  {
    assert last in before + [last];
  }

  lemma {:induction false} ReplaceListsExactlyIf<D, K>(key: nat -> (D -> K), given: seq<Option<seq<Item<D>>>>)
    ensures ReplaceLists(key, given).Some? <==> forall list | list in given :: Taken(list)
  {
    if given != [] {
      var before, last := given[..|given| - 1], given[|given| - 1];
      ReplaceListsExactlyIf(key, before);
      AllTaken(before, last);
      assert before + [last] == given;
    }
  }

  lemma TakenIsAcceptable<D>(given: seq<Option<seq<Item<D>>>>)
    ensures (forall list | list in given :: Taken(list)) <==> forall at | 0 <= at < |given| && given[at].Some? :: Acceptable(given[at].value)
  {
    forall at | 0 <= at < |given| && given[at].Some?
      ensures Taken(given[at]) <==> Acceptable(given[at].value)
    {
      AcceptExactlyIf(given[at].value);
    }
    if forall at | 0 <= at < |given| && given[at].Some? :: Acceptable(given[at].value) {
      forall list | list in given
        ensures Taken(list)
      {
        var at :| 0 <= at < |given| && given[at] == list;
      }
    }
  }

  lemma {:induction false} ReplaceListsGives<D, K>(key: nat -> (D -> K), given: seq<Option<seq<Item<D>>>>)
    requires ReplaceLists(key, given).Some?
    ensures ListsGiven(key, given, ReplaceLists(key, given).value)
  {
    if given != [] {
      var before, last := given[..|given| - 1], given[|given| - 1];
      ReplaceListsGives(key, before);
      LastListGiven(key, before, last);
      assert before + [last] == given;
    }
  }

  lemma LastListGiven<D, K>(key: nat -> (D -> K), before: seq<Option<seq<Item<D>>>>, last: Option<seq<Item<D>>>)
    requires ReplaceLists(key, before).Some? && ListsGiven(key, before, ReplaceLists(key, before).value)
    requires last.Some? ==> Accept(last.value).Some?
    ensures var list := if last.None? then [] else Dedup(key(|before|), Accept(last.value).value);
            ListsGiven(key, before + [last], ReplaceLists(key, before).value + [list])
  {
    if last.Some? {
      AcceptExactlyIf(last.value);
      DedupIsFirstOfEach(key(|before|), Built(last.value));
    }
    var list := if last.None? then [] else Dedup(key(|before|), Accept(last.value).value);
    ListsGivenGrows(key, before, ReplaceLists(key, before).value, last, list);
  }

  /** A PUT is refused exactly if it is for another version, the new name is taken, or a list is refused; else it sets everything. */
  lemma ReplacedSets<D, K, V, F>(server: Server<D, K, V, F>, row: Row<D, F>, ifMatch: Option<nat>, given: seq<Option<seq<Item<D>>>>, fields: F)
    requires |row.profile.lists| == COUNT && |given| == COUNT
    ensures var after := Replaced(server, row, ifMatch, given, fields);
            && (after.Some? <==>
                  && (ifMatch == None || ifMatch == Some(row.version)) && !server.conflict(row.profile.fields, fields)
                  && forall at | 0 <= at < COUNT && given[at].Some? :: Acceptable(given[at].value))
            && (after.Some? ==>
                  && after.value.version == row.version + 1 && after.value.profile.fields == server.resolve(fields)
                  && ListsGiven(server.key, given, after.value.profile.lists))
  {
    ReplaceListsExactlyIf(server.key, given);
    TakenIsAcceptable(given);
    if ReplaceLists(server.key, given).Some? {
      ReplaceListsGives(server.key, given);
    }
  }
}
