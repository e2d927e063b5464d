/**
 The PATCH handler's steps: a user is loaded into arrays, cloned deeply, edited in place,
 compared with its clone and written back under a version guard.
 */
module PatchEditor {
  import opened Text
  import opened MultiValued
  import opened PatchValues
  import opened PatchUser

  method Fresh<D>(s: seq<Entry<D>>) returns (a: array<Entry<D>>)
    ensures fresh(a) && a[..] == s
  {
    a := new Entry<D>[|s|](i requires 0 <= i < |s| => s[i]);
  }

  /** The loop that clears every primary flag. */
  method DemoteAll<D>(a: array<Entry<D>>)
    modifies a
    ensures a[..] == Demote(old(a[..]))
  {
    for i := 0 to a.Length
      invariant forall j | 0 <= j < i :: a[j] == old(a[j]).(primary := false)
      invariant forall j | i <= j < a.Length :: a[j] == old(a[j])
    {
      a[i] := a[i].(primary := false);
    }
  }

  /** The same, leaving one entry as it is. */
  method DemoteAllBut<D>(a: array<Entry<D>>, keep: nat)
    requires keep < a.Length
    modifies a
    ensures a[..] == DemoteOthers(old(a[..]), keep)
  {
    for i := 0 to a.Length
      invariant forall j | 0 <= j < i && j != keep :: a[j] == old(a[j]).(primary := false)
      invariant forall j | i <= j < a.Length :: a[j] == old(a[j])
      invariant a[keep] == old(a[keep])
    {
      if i != keep {
        a[i] := a[i].(primary := false);
      }
    }
  }

  method ValidateSinglePrimary<D>(items: seq<Item<D>>) returns (ok: bool)
    ensures ok <==> PrimaryCount(items) <= 1
  {
    var count := 0;
    for n := 0 to |items|
      invariant count == PrimaryCount(items[..n])
    {
      var upTo := items[..n + 1];
      assert upTo[..|upTo| - 1] == items[..n] && upTo[n] == items[n];
      if items[n].primary {
        count := count + 1;
      }
    }
    assert items[..|items|] == items;
    ok := count <= 1;
  }

  method RemoveMatching<D>(items: seq<Entry<D>>, drops: Entry<D> -> bool) returns (result: seq<Entry<D>>)
    ensures result == Without(items, drops)
  {
    result := [];
    for n := 0 to |items|
      invariant result == Without(items[..n], drops)
    {
      ghost var upTo := items[..n + 1];
      assert upTo[..|upTo| - 1] == items[..n] && upTo[n] == items[n];
      if !drops(items[n]) {
        result := result + [items[n]];
      }
    }
    assert items[..|items|] == items;
  }

  lemma BuildNext<D>(items: seq<Item<D>>, n: nat)
    requires n < |items| && BuildAll(items[..n]).Some?
    ensures BuildAll(items[..n + 1]) ==
            if items[n].data.None? then None
            else Some(BuildAll(items[..n]).value + [Entry(items[n].data.value, items[n].primary)])
  {
    var upTo := items[..n + 1];
    assert upTo[..|upTo| - 1] == items[..n] && upTo[n] == items[n];
  }

  lemma {:induction false} BuildFails<D>(items: seq<Item<D>>, n: nat)
    requires n <= |items| && BuildAll(items[..n]).None?
    ensures BuildAll(items).None?
    decreases |items| - n
  {
    if n == |items| {
      assert items[..n] == items;
    } else {
      var upTo := items[..n + 1];
      assert upTo[..|upTo| - 1] == items[..n];
      BuildFails(items, n + 1);
    }
  }

  lemma {:induction false} ChangeFails<D>(s: seq<Entry<D>>, n: nat, matches: Entry<D> -> bool, write: Setter<D>, demote: bool)
    requires n <= |s| && ChangeUpTo(s, n, matches, write, demote).None?
    ensures ChangeUpTo(s, |s|, matches, write, demote).None?
    decreases |s| - n
  {
    if n < |s| {
      ChangeFails(s, n + 1, matches, write, demote);
    }
  }

  /** The filtered update of one array; without a match, or on an error, it fails. */
  method UpdateInPlace<D>(a: array<Entry<D>>, matches: Entry<D> -> bool, write: Setter<D>, demote: bool) returns (ok: bool, found: bool)
    modifies a
    ensures ChangeUpTo(old(a[..]), a.Length, matches, write, demote) == if ok then Some((a[..], found)) else None
  {
    ghost var s := a[..];
    found := false;
    for i := 0 to a.Length
      invariant ChangeUpTo(s, i, matches, write, demote) == Some((a[..], found))
    {
      ghost var t := a[..];
      if matches(a[i]) {
        match write(a[i])
        case None =>
          ChangeFails(s, i + 1, matches, write, demote);
          return false, found;
        case Some(e) =>
          a[i] := e;
          assert a[..] == t[i := e];
          if demote {
            DemoteAllBut(a, i);
          }
          assert Change(t, i, write, demote) == Some(a[..]);
          found := true;
      }
    }
    ok := true;
  }

  class LoadedUser<D(==), F(==)> {
    var lists: seq<array<Entry<D>>>
    var fields: F
    var version: nat

    ghost predicate Valid()
      reads this
    {
      |lists| == COUNT && forall i, j | 0 <= i < j < COUNT :: lists[i] != lists[j]
    }

    /** The attributes the object holds now. */
    ghost predicate Shows(p: Profile<D, F>)
      reads this, lists
    {
      && Valid() && |p.lists| == COUNT && fields == p.fields
      && forall at | 0 <= at < COUNT :: lists[at][..] == p.lists[at]
    }

    ghost function Arrays(): set<array<Entry<D>>>
      reads this
    {
      set a | a in lists
    }

    constructor (row: Row<D, F>)
      requires |row.profile.lists| == COUNT
      ensures Shows(row.profile) && version == row.version
      ensures forall at | 0 <= at < COUNT :: fresh(lists[at])
    {
      lists, fields, version := [], row.profile.fields, row.version;
      new;
      for n := 0 to COUNT
        invariant |lists| == n && fields == row.profile.fields && version == row.version
        invariant forall i | 0 <= i < n :: fresh(lists[i]) && lists[i][..] == row.profile.lists[i]
        invariant forall i, j | 0 <= i < j < n :: lists[i] != lists[j]
      {
        var a := Fresh(row.profile.lists[n]);
        lists := lists + [a];
      }
    }

    /** A deep copy: none of its arrays is shared. */
    method Clone(ghost p: Profile<D, F>) returns (copy: LoadedUser<D, F>)
      requires Shows(p)
      ensures fresh(copy) && copy.Shows(p) && copy.version == version
      ensures forall at | 0 <= at < COUNT :: fresh(copy.lists[at])
    {
      var contents: seq<seq<Entry<D>>> := [];
      for n := 0 to COUNT
        invariant |contents| == n
        invariant forall i | 0 <= i < n :: contents[i] == p.lists[i]
      {
        contents := contents + [lists[n][..]];
      }
      assert contents == p.lists;
      copy := new LoadedUser(Row(version, Profile(contents, fields)));
    }

    method MutableEqual(other: LoadedUser<D, F>, ghost p: Profile<D, F>, ghost q: Profile<D, F>) returns (same: bool)
      requires Shows(p) && other.Shows(q)
      ensures same <==> p == q
    {
      if fields != other.fields {
        return false;
      }
      for n := 0 to COUNT
        invariant forall i | 0 <= i < n :: p.lists[i] == q.lists[i]
      {
        if lists[n][..] != other.lists[n][..] {
          assert p.lists[n] != q.lists[n];
          return false;
        }
      }
      assert p.lists == q.lists;
      same := true;
    }

    /** The attribute gets a new array. */
    method SetList(at: nat, s: seq<Entry<D>>)
      requires Valid() && at < COUNT
      modifies `lists
      ensures Valid() && fresh(lists[at]) && lists == old(lists)[at := lists[at]] && lists[at][..] == s
    {
      var a := Fresh(s);
      lists := lists[at := a];
    }

    /** Only this attribute changes; its array is the old one or a new one. */
    twostate predicate OnlyList(at: nat)
      requires old(|lists|) == COUNT && at < COUNT
      reads this, lists
    {
      && Valid()
      && (forall i | 0 <= i < COUNT && i != at :: lists[i] == old(lists[i]) && lists[i][..] == old(lists[i][..]))
      && (lists[at] == old(lists[at]) || fresh(lists[at]))
    }

    method AddToMultiValued<K(==)>(key: D -> K, at: nat, items: Option<seq<Item<D>>>) returns (ok: bool)
      requires Valid() && at < COUNT
      modifies `lists, lists[at]
      ensures OnlyList(at)
      ensures match AddTo(key, old(lists[at][..]), items)
              case None => !ok
              case Some(s) => ok && lists[at][..] == s
    {
      if items.None? {
        return false;
      }
      var valid := ValidateSinglePrimary(items.value);
      if !valid {
        return false;
      }
      ok := AppendItems(at, items.value);
      if !ok {
        return;
      }
      var result := Deduplicate(key, lists[at][..]);
      SetList(at, result);
    }

    /** Each entry is built and appended, after the others are demoted if it is primary. */
    method AppendItems(at: nat, items: seq<Item<D>>) returns (ok: bool)
      requires Valid() && at < COUNT
      modifies `lists, lists[at]
      ensures OnlyList(at)
      ensures match BuildAll(items)
              case None => !ok
              case Some(built) => ok && lists[at][..] == AppendAll(old(lists[at][..]), built)
    {
      ghost var s := lists[at][..];
      assert items[..0] == [];
      for n := 0 to |items|
        invariant OnlyList(at)
        invariant BuildAll(items[..n]).Some? && lists[at][..] == AppendAll(s, BuildAll(items[..n]).value)
      {
        BuildNext(items, n);
        if items[n].data.None? {
          BuildFails(items, n + 1);
          return false;
        }
        var e := Entry(items[n].data.value, items[n].primary);
        ghost var built := BuildAll(items[..n]).value;
        if e.primary {
          DemoteAll(lists[at]);
        }
        SetList(at, lists[at][..] + [e]);
      }
      assert items[..|items|] == items;
      ok := true;
    }

    method ApplyFilteredUpdate<K(==), V>(key: D -> K, write: Writer<D, V>, at: nat,
      matches: Option<Entry<D> -> bool>, name: string, value: Value<V>, order: Order<D, V>) returns (ok: bool)
      requires Valid() && at < COUNT
      modifies `lists, lists[at]
      ensures OnlyList(at)
      ensures match (if matches.None? then None
                     else MultiValued.Update(key, old(lists[at][..]), matches.value, SetterOf(write, name, order), SetsPrimaryTrue(name, value)))
              case None => !ok
              case Some(s) => ok && lists[at][..] == s
    {
      if matches.None? {
        return false;
      }
      var demote, a := SetsPrimaryTrue(name, value), lists[at];
      var done, found := UpdateInPlace(a, matches.value, SetterOf(write, name, order), demote);
      if !done || !found {
        return false;
      }
      var result := Deduplicate(key, a[..]);
      SetList(at, result);
      ok := true;
    }

    method ApplyOperation<K(==), V>(server: Server<D, K, V, F>, op: Op<D, V, F>, ghost p: Profile<D, F>) returns (ok: bool)
      requires Shows(p) && OnList(op)
      modifies `lists, `fields, Arrays()
      ensures match Apply(server, op, p) case None => !ok case Some(q) => ok && Shows(q)
      ensures forall a | a in Arrays() :: a in old(Arrays()) || fresh(a)
    {
      match op
      case Add(at, items) =>
        ok := AddToMultiValued(server.key(at), at, items);
      case Replace(at, given) =>
        SetList(at, []);
        ok := true;
        if given.Some? {
          ok := AddToMultiValued(server.key(at), at, given.value);
        }
      case Update(at, matches, name, value, order) =>
        ok := ApplyFilteredUpdate(server.key(at), server.write(at), at, matches, name, value, order);
      case Remove(at, drops) =>
        var result := RemoveMatching(lists[at][..], drops);
        SetList(at, result);
        ok := true;
      case Clear(at) =>
        SetList(at, []);
        ok := true;
      case Single(change) =>
        match change(fields)
        case None => ok := false;
        case Some(f) =>
          fields := f;
          ok := true;
    }

    /** Fills in what the server keeps about the manager. */
    method Complete<K, V>(server: Server<D, K, V, F>)
      modifies `fields
      ensures fields == server.resolve(old(fields))
    {
      fields := server.resolve(fields);
    }

    method ApplyPatchOperations<K(==), V>(server: Server<D, K, V, F>, ops: seq<Op<D, V, F>>, ghost p: Profile<D, F>) returns (ok: bool)
      requires Shows(p) && Ops(ops)
      modifies `lists, `fields, Arrays()
      ensures match (if ops == [] then None else Run(server, ops, p)) case None => !ok case Some(q) => ok && Shows(q)
    {
      if ops == [] {
        return false;
      }
      ghost var q := p;
      assert ops[..0] == [];
      for n := 0 to |ops|
        invariant Run(server, ops[..n], p) == Some(q) && Shows(q)
        invariant forall a | a in Arrays() :: a in old(Arrays()) || fresh(a)
      {
        RunNext(server, ops, n, p);
        assert OnList(ops[n]);
        var applied := ApplyOperation(server, ops[n], q);
        if !applied {
          RunFails(server, ops, n + 1, p);
          return false;
        }
        q := Apply(server, ops[n], q).value;
      }
      assert ops[..|ops|] == ops;
      ok := true;
    }
  }

  lemma RunNext<D, K, V, F>(server: Server<D, K, V, F>, ops: seq<Op<D, V, F>>, n: nat, p: Profile<D, F>)
    requires |p.lists| == COUNT && Ops(ops) && n < |ops| && Run(server, ops[..n], p).Some?
    ensures OnList(ops[n])
    ensures Run(server, ops[..n + 1], p) == Apply(server, ops[n], Run(server, ops[..n], p).value)
  {
    var upTo := ops[..n + 1];
    assert upTo[..|upTo| - 1] == ops[..n] && upTo[n] == ops[n];
  }

  lemma {:induction false} RunFails<D, K, V, F>(server: Server<D, K, V, F>, ops: seq<Op<D, V, F>>, n: nat, p: Profile<D, F>)
    requires |p.lists| == COUNT && Ops(ops) && n <= |ops| && Run(server, ops[..n], p).None?
    ensures Run(server, ops, p).None?
    decreases |ops| - n
  {
    if n == |ops| {
      assert ops[..n] == ops;
    } else {
      var upTo := ops[..n + 1];
      assert upTo[..|upTo| - 1] == ops[..n];
      RunFails(server, ops, n + 1, p);
    }
  }

  class UserStore<D(==), F(==)> {
    var row: Row<D, F>

    constructor (row: Row<D, F>)
      ensures this.row == row
    {
      this.row := row;
    }

    /** The guarded write: emails deduplicated once more, the version raised, if the row is still the one read. */
    method Update<K(==)>(key: D -> K, user: LoadedUser<D, F>, ghost q: Profile<D, F>) returns (ok: bool)
      requires user.Shows(q) && |row.profile.lists| == COUNT
      modifies `row, user`lists, user`version
      ensures ok <==> old(row.version) == old(user.version)
      ensures row == if ok then Row(old(user.version) + 1, q.(lists := q.lists[0 := Dedup(key, q.lists[0])])) else old(row)
    {
      var before := user.version;
      user.version := user.version + 1;
      var emails := Deduplicate(key, user.lists[0][..]);
      user.SetList(0, emails);
      if row.version != before {
        return false;
      }
      var contents: seq<seq<Entry<D>>> := [];
      ghost var expected := q.lists[0 := Dedup(key, q.lists[0])];
      for n := 0 to COUNT
        invariant |contents| == n
        invariant forall i | 0 <= i < n :: contents[i] == expected[i]
      {
        contents := contents + [user.lists[n][..]];
      }
      assert contents == expected;
      row := Row(user.version, Profile(contents, user.fields));
      ok := true;
    }

    /** A whole PATCH request: it answers and stores what the requests's specification says. */
    method ExecutePatchUser<K(==), V>(server: Server<D, K, V, F>, ifMatch: Option<nat>, ops: seq<Op<D, V, F>>) returns (ok: bool)
      requires |row.profile.lists| == COUNT && Ops(ops)
      modifies `row
      ensures match Patched(server, old(row), ifMatch, ops)
              case None => !ok && row == old(row)
              case Some(after) => ok && row == after
    {
      var user := new LoadedUser(row);
      if ifMatch.Some? && ifMatch.value != user.version {
        return false;
      }
      var before := user.Clone(row.profile);
      ok := user.ApplyPatchOperations(server, ops, row.profile);
      if !ok {
        return;
      }
      ghost var q := Run(server, ops, row.profile).value;
      q := q.(fields := server.resolve(q.fields));
      user.Complete(server);
      ok := SaveIfChanged(server, before, user, q);
    }

    /** Nothing is written when the user equals its clone, or when its new name is taken. */
    method SaveIfChanged<K(==), V>(server: Server<D, K, V, F>, before: LoadedUser<D, F>, user: LoadedUser<D, F>, ghost q: Profile<D, F>)
      returns (ok: bool)
      requires |row.profile.lists| == COUNT && before.Shows(row.profile) && user.Shows(q) && user.version == row.version
      modifies `row, user`lists, user`version
      ensures var saved := Row(old(row.version) + 1, q.(lists := q.lists[0 := Dedup(server.key(0), q.lists[0])]));
              if q == old(row.profile) then ok && row == old(row)
              else if server.conflict(old(row.profile.fields), q.fields) then !ok && row == old(row)
              else ok && row == saved
    {
      var same := before.MutableEqual(user, row.profile, q);
      if same {
        return true;
      }
      if server.conflict(before.fields, user.fields) {
        return false;
      }
      ok := Update(server.key(0), user, q);
    }
  }
}
