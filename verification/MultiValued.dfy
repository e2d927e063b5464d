/**
 One multi-valued attribute of a user (section 2.4 of RFC 7643): its entries, and what
 adding, replacing, updating by filter, removing and deduplicating do to them. The eight
 attributes differ only in their data and in the key that tells two entries apart.
 */
module MultiValued {
  import opened Text

  datatype Entry<D> = Entry(data: D, primary: bool)

  ghost predicate OnePrimary<D>(s: seq<Entry<D>>) {
    forall i, j | 0 <= i < j < |s| :: !(s[i].primary && s[j].primary)
  }

  ghost predicate Distinct<D, K>(key: D -> K, s: seq<Entry<D>>) {
    forall i, j | 0 <= i < j < |s| :: key(s[i].data) != key(s[j].data)
  }

  ghost predicate Good<D, K>(key: D -> K, s: seq<Entry<D>>) {
    OnePrimary(s) && Distinct(key, s)
  }

  // ----- deduplication

  predicate HasKey<D, K(==)>(key: D -> K, s: seq<Entry<D>>, k: K) {
    exists i | 0 <= i < |s| :: key(s[i].data) == k
  }

  /** The first entry with the key. */
  function IndexOf<D, K(==)>(key: D -> K, s: seq<Entry<D>>, k: K): (i: nat)
    requires HasKey(key, s, k)
    ensures i < |s| && key(s[i].data) == k
  {
    if key(s[0].data) == k then 0 else 1 + IndexOf(key, s[1..], k)
  }

  /** An entry is appended, or its primary flag joined to the one that stands for it. */
  function Insert<D, K(==)>(key: D -> K, s: seq<Entry<D>>, e: Entry<D>): seq<Entry<D>> {
    if !HasKey(key, s, key(e.data)) then s + [e]
    else
      var i := IndexOf(key, s, key(e.data));
      s[i := s[i].(primary := s[i].primary || e.primary)]
  }

  function Dedup<D, K(==)>(key: D -> K, s: seq<Entry<D>>): seq<Entry<D>> {
    if s == [] then [] else Insert(key, Dedup(key, s[..|s| - 1]), s[|s| - 1])
  }

  // What deduplication is for: the data of the first entry with each key, in order, primary
  // if any entry with that key is.

  function Firsts<D, K(==)>(key: D -> K, s: seq<Entry<D>>): seq<D> {
    if s == [] then []
    else
      var before, last := s[..|s| - 1], s[|s| - 1];
      if HasKey(key, before, key(last.data)) then Firsts(key, before) else Firsts(key, before) + [last.data]
  }

  predicate SomePrimary<D, K(==)>(key: D -> K, s: seq<Entry<D>>, k: K) {
    exists i | 0 <= i < |s| :: key(s[i].data) == k && s[i].primary
  }

  lemma {:induction false} DedupIsFirsts<D, K>(key: D -> K, s: seq<Entry<D>>)
    ensures |Dedup(key, s)| == |Firsts(key, s)|
    ensures forall i | 0 <= i < |Dedup(key, s)| :: Dedup(key, s)[i] == Entry(Firsts(key, s)[i], SomePrimary(key, s, key(Firsts(key, s)[i])))
    ensures Distinct(key, Dedup(key, s))
    ensures forall k :: HasKey(key, Dedup(key, s), k) <==> HasKey(key, s, k)
  {
    if s != [] {
      var before, last := s[..|s| - 1], s[|s| - 1];
      DedupIsFirsts(key, before);
      forall k ensures HasKey(key, s, k) <==> HasKey(key, before, k) || k == key(last.data) {
        HasKeySnoc(key, before, last, k);
      }
      forall k ensures SomePrimary(key, s, k) <==> SomePrimary(key, before, k) || (k == key(last.data) && last.primary) {
        SomePrimarySnoc(key, before, last, k);
      }
      InsertKeys(key, Dedup(key, before), last);
      InsertIsFirsts(key, Dedup(key, before), Firsts(key, before), before, last);
    }
  }

  lemma HasKeySnoc<D, K>(key: D -> K, before: seq<Entry<D>>, last: Entry<D>, k: K)
    ensures HasKey(key, before + [last], k) <==> HasKey(key, before, k) || k == key(last.data)
  {
    var s := before + [last];
    if HasKey(key, before, k) {
      var i :| 0 <= i < |before| && key(before[i].data) == k;
      assert s[i] == before[i];
    }
    assert s[|before|] == last;
  }

  lemma SomePrimarySnoc<D, K>(key: D -> K, before: seq<Entry<D>>, last: Entry<D>, k: K)
    ensures SomePrimary(key, before + [last], k) <==> SomePrimary(key, before, k) || (k == key(last.data) && last.primary)
  {
    var s := before + [last];
    if SomePrimary(key, before, k) {
      var i :| 0 <= i < |before| && key(before[i].data) == k && before[i].primary;
      assert s[i] == before[i];
    }
    assert s[|before|] == last;
  }

  lemma InsertKeys<D, K>(key: D -> K, s: seq<Entry<D>>, e: Entry<D>)
    requires Distinct(key, s)
    ensures Distinct(key, Insert(key, s, e))
    ensures forall k :: HasKey(key, Insert(key, s, e), k) <==> HasKey(key, s, k) || k == key(e.data)
  {
    var r := Insert(key, s, e);
    assert forall i | 0 <= i < |s| :: r[i].data == s[i].data;
    forall k ensures HasKey(key, r, k) <==> HasKey(key, s, k) || k == key(e.data) {
      if HasKey(key, s, k) {
        var i :| 0 <= i < |s| && key(s[i].data) == k;
        assert key(r[i].data) == k;
      }
      if k == key(e.data) && !HasKey(key, s, k) {
        assert r[|s|] == e;
      }
    }
  }

  lemma InsertIsFirsts<D, K>(key: D -> K, r: seq<Entry<D>>, f: seq<D>, before: seq<Entry<D>>, last: Entry<D>)
    requires Distinct(key, r) && |r| == |f|
    requires forall i | 0 <= i < |r| :: r[i] == Entry(f[i], SomePrimary(key, before, key(f[i])))
    requires forall k :: HasKey(key, r, k) <==> HasKey(key, before, k)
    ensures var g := if HasKey(key, before, key(last.data)) then f else f + [last.data];
            var t := Insert(key, r, last);
            && |t| == |g|
            && forall i | 0 <= i < |t| :: t[i] == Entry(g[i], SomePrimary(key, before + [last], key(g[i])))
  {
    var g := if HasKey(key, before, key(last.data)) then f else f + [last.data];
    var t := Insert(key, r, last);
    forall i | 0 <= i < |t| ensures t[i] == Entry(g[i], SomePrimary(key, before + [last], key(g[i]))) {
      SomePrimarySnoc(key, before, last, key(g[i]));
      if i < |r| {
        assert r[i].data == f[i] == g[i];
      } else {
        assert !SomePrimary(key, before, key(last.data)) by {
          assert !HasKey(key, before, key(last.data));
        }
      }
    }
  }

  /** Entries with distinct keys stay as they are; so deduplicating twice is deduplicating once. */
  lemma {:induction false} DistinctIsKept<D, K>(key: D -> K, s: seq<Entry<D>>)
    requires Distinct(key, s)
    ensures Dedup(key, s) == s
  {
    if s != [] {
      var before := s[..|s| - 1];
      DistinctIsKept(key, before);
      assert before + [s[|s| - 1]] == s;
    }
  }

  lemma DedupIsIdempotent<D, K>(key: D -> K, s: seq<Entry<D>>)
    ensures Dedup(key, Dedup(key, s)) == Dedup(key, s)
  {
    DedupIsFirsts(key, s);
    DistinctIsKept(key, Dedup(key, s));
  }

  lemma DedupIsGood<D, K>(key: D -> K, s: seq<Entry<D>>)
    requires OnePrimary(s)
    ensures Good(key, Dedup(key, s))
  {
    DedupIsFirsts(key, s);
    var r := Dedup(key, s);
    forall i, j | 0 <= i < j < |r| ensures !(r[i].primary && r[j].primary) {
      assert r[i].primary ==> SomePrimary(key, s, key(r[i].data));
      assert r[j].primary ==> SomePrimary(key, s, key(r[j].data));
    }
  }

  lemma InsertAt<D, K>(key: D -> K, s: seq<Entry<D>>, e: Entry<D>, i: nat)
    requires Distinct(key, s) && i < |s| && key(s[i].data) == key(e.data)
    ensures Insert(key, s, e) == s[i := s[i].(primary := s[i].primary || e.primary)]
  {
    assert HasKey(key, s, key(e.data)) && IndexOf(key, s, key(e.data)) == i;
  }

  lemma DedupNext<D, K>(key: D -> K, items: seq<Entry<D>>, n: nat)
    requires n < |items|
    ensures Dedup(key, items[..n + 1]) == Insert(key, Dedup(key, items[..n]), items[n])
  {
    var upTo := items[..n + 1];
    assert upTo[..|upTo| - 1] == items[..n] && upTo[n] == items[n];
  }

  /** The result list and the index of each key, as the entries are gone through. */
  method Deduplicate<D, K(==)>(key: D -> K, items: seq<Entry<D>>) returns (result: seq<Entry<D>>)
    ensures result == Dedup(key, items)
  {
    if |items| <= 1 {
      DistinctIsKept(key, items);
      return items;
    }
    result := [];
    var seen: map<K, nat> := map[];
    for n := 0 to |items|
      invariant result == Dedup(key, items[..n])
      invariant Distinct(key, result)
      invariant forall k :: k in seen <==> HasKey(key, result, k)
      invariant forall k | k in seen :: seen[k] < |result| && key(result[seen[k]].data) == k
    {
      var e := items[n];
      var k := key(e.data);
      ghost var before := result;
      DedupNext(key, items, n);
      InsertKeys(key, before, e);
      if k in seen {
        var i := seen[k];
        InsertAt(key, before, e, i);
        if e.primary {
          result := result[i := result[i].(primary := true)];
        } else {
          assert before[i := before[i]] == before;
        }
      } else {
        assert !HasKey(key, before, k);
        seen := seen[k := |result|];
        result := result + [e];
      }
    }
    assert items[..|items|] == items;
  }

  // ----- adding

  function Demote<D>(s: seq<Entry<D>>): (r: seq<Entry<D>>)
    ensures |r| == |s|
    ensures forall i | 0 <= i < |s| :: r[i] == s[i].(primary := false)
  {
    seq(|s|, i requires 0 <= i < |s| => s[i].(primary := false))
  }

  function Append<D>(s: seq<Entry<D>>, e: Entry<D>): seq<Entry<D>> {
    (if e.primary then Demote(s) else s) + [e]
  }

  function AppendAll<D>(s: seq<Entry<D>>, items: seq<Entry<D>>): seq<Entry<D>> {
    if items == [] then s else Append(AppendAll(s, items[..|items| - 1]), items[|items| - 1])
  }

  function Add<D, K(==)>(key: D -> K, s: seq<Entry<D>>, items: seq<Entry<D>>): seq<Entry<D>> {
    Dedup(key, AppendAll(s, items))
  }

  lemma {:induction false} AppendAllKeeps<D>(s: seq<Entry<D>>, items: seq<Entry<D>>)
    requires OnePrimary(s)
    ensures OnePrimary(AppendAll(s, items))
  {
    if items != [] {
      AppendAllKeeps(s, items[..|items| - 1]);
    }
  }

  lemma AddIsGood<D, K>(key: D -> K, s: seq<Entry<D>>, items: seq<Entry<D>>)
    requires OnePrimary(s)
    ensures Good(key, Add(key, s, items))
  {
    AppendAllKeeps(s, items);
    DedupIsGood(key, AppendAll(s, items));
  }

  // ----- removing

  function Without<D>(s: seq<Entry<D>>, matches: Entry<D> -> bool): seq<Entry<D>> {
    if s == [] then []
    else
      var last := s[|s| - 1];
      Without(s[..|s| - 1], matches) + (if matches(last) then [] else [last])
  }

  lemma {:induction false} WithoutKeeps<D>(s: seq<Entry<D>>, matches: Entry<D> -> bool, e: Entry<D>)
    ensures e in Without(s, matches) <==> e in s && !matches(e)
  {
    if s != [] {
      var before, last := s[..|s| - 1], s[|s| - 1];
      assert s == before + [last];
      WithoutKeeps(before, matches, e);
    }
  }

  lemma {:induction false} WithoutIsGood<D, K>(key: D -> K, s: seq<Entry<D>>, matches: Entry<D> -> bool)
    requires Good(key, s)
    ensures Good(key, Without(s, matches))
  {
    if s != [] {
      var before, last := s[..|s| - 1], s[|s| - 1];
      var r := Without(before, matches);
      WithoutIsGood(key, before, matches);
      forall i | 0 <= i < |r| ensures key(r[i].data) != key(last.data) && !(r[i].primary && last.primary) {
        WithoutKeeps(before, matches, r[i]);
        LastDiffers(key, s, r[i]);
      }
    }
  }

  lemma LastDiffers<D, K>(key: D -> K, s: seq<Entry<D>>, e: Entry<D>)
    requires s != [] && Good(key, s) && e in s[..|s| - 1]
    ensures key(e.data) != key(s[|s| - 1].data) && !(e.primary && s[|s| - 1].primary)
  {
    var j :| 0 <= j < |s| - 1 && s[j] == e;
  }

  // ----- updating what a filter matches

  /** Writes an entry's sub-attributes; None is an error. */
  type Setter<!D> = Entry<D> -> Option<Entry<D>>

  function DemoteOthers<D>(s: seq<Entry<D>>, i: nat): (r: seq<Entry<D>>)
    requires i < |s|
    ensures |r| == |s| && r[i] == s[i]
    ensures forall j | 0 <= j < |s| && j != i :: r[j] == s[j].(primary := false)
  {
    Demote(s)[i := s[i]]
  }

  /** One entry: written, and the others demoted when the change makes it primary. */
  function Change<D>(s: seq<Entry<D>>, i: nat, write: Setter<D>, demote: bool): Option<seq<Entry<D>>>
    requires i < |s|
  {
    match write(s[i])
    case None => None
    case Some(e) => Some(if demote then DemoteOthers(s[i := e], i) else s[i := e])
  }

  /** The first n entries in order, each looked at as its predecessors have left it; whether any matched. */
  function ChangeUpTo<D>(s: seq<Entry<D>>, n: nat, matches: Entry<D> -> bool, write: Setter<D>, demote: bool): (r: Option<(seq<Entry<D>>, bool)>)
    requires n <= |s|
    ensures r.Some? ==> |r.value.0| == |s|
  {
    if n == 0 then Some((s, false))
    else
      match ChangeUpTo(s, n - 1, matches, write, demote)
      case None => None
      case Some((t, found)) =>
        if !matches(t[n - 1]) then Some((t, found))
        else
          match Change(t, n - 1, write, demote)
          case None => None
          case Some(u) => Some((u, true))
  }

  /** No match is an error. */
  function Update<D, K(==)>(key: D -> K, s: seq<Entry<D>>, matches: Entry<D> -> bool, write: Setter<D>, demote: bool): Option<seq<Entry<D>>> {
    match ChangeUpTo(s, |s|, matches, write, demote)
    case None => None
    case Some((t, found)) => if found then Some(Dedup(key, t)) else None
  }

  /** Without demotion the setter makes no entry primary that was not. */
  ghost predicate Careful<D(!new)>(write: Setter<D>, demote: bool) {
    demote || forall e :: write(e).Some? && write(e).value.primary ==> e.primary
  }

  lemma {:induction false} ChangeUpToKeeps<D(!new)>(s: seq<Entry<D>>, n: nat, matches: Entry<D> -> bool, write: Setter<D>, demote: bool)
    requires n <= |s| && OnePrimary(s) && Careful(write, demote)
    ensures match ChangeUpTo(s, n, matches, write, demote) case None => true case Some((t, _)) => OnePrimary(t)
  {
    if n > 0 {
      ChangeUpToKeeps(s, n - 1, matches, write, demote);
      var before := ChangeUpTo(s, n - 1, matches, write, demote);
      if before.Some? && matches(before.value.0[n - 1]) {
        ChangeKeeps(before.value.0, n - 1, write, demote);
      }
    }
  }

  lemma ChangeKeeps<D(!new)>(s: seq<Entry<D>>, i: nat, write: Setter<D>, demote: bool)
    requires i < |s| && OnePrimary(s) && Careful(write, demote)
    ensures match Change(s, i, write, demote) case None => true case Some(t) => OnePrimary(t)
  {
    match write(s[i])
    case None =>
    case Some(e) =>
      var t := if demote then DemoteOthers(s[i := e], i) else s[i := e];
      forall a, b | 0 <= a < b < |t| ensures !(t[a].primary && t[b].primary) {
        if !demote {
          assert t[a].primary ==> s[a].primary;
          assert t[b].primary ==> s[b].primary;
        }
      }
  }

  lemma UpdateIsGood<D(!new), K>(key: D -> K, s: seq<Entry<D>>, matches: Entry<D> -> bool, write: Setter<D>, demote: bool)
    requires OnePrimary(s) && Careful(write, demote)
    ensures match Update(key, s, matches, write, demote) case None => true case Some(t) => Good(key, t)
  {
    ChangeUpToKeeps(s, |s|, matches, write, demote);
    match ChangeUpTo(s, |s|, matches, write, demote)
    case None =>
    case Some((t, found)) => DedupIsGood(key, t);
  }

  // ----- adding the same entries again

  /** The key of the primary entry, if there is one. */
  function PrimaryKey<D, K>(key: D -> K, items: seq<Entry<D>>): Option<K> {
    if items == [] then None
    else
      var last := items[|items| - 1];
      if last.primary then Some(key(last.data)) else PrimaryKey(key, items[..|items| - 1])
  }

  /** Exactly the entries with the key are primary; nothing changes without one. */
  function Mark<D, K(==)>(key: D -> K, s: seq<Entry<D>>, k: Option<K>): seq<Entry<D>> {
    match k
    case None => s
    case Some(k) => seq(|s|, i requires 0 <= i < |s| => s[i].(primary := key(s[i].data) == k))
  }

  /** Appending at most one primary entry demotes the old ones, if there is one. */
  lemma {:induction false} AppendAllSplits<D, K>(key: D -> K, s: seq<Entry<D>>, items: seq<Entry<D>>)
    requires OnePrimary(items)
    ensures AppendAll(s, items) == (if PrimaryKey(key, items).Some? then Demote(s) else s) + items
    ensures PrimaryKey(key, items).Some? <==> exists i | 0 <= i < |items| :: items[i].primary
  {
    if items != [] {
      var before, last := items[..|items| - 1], items[|items| - 1];
      AppendAllSplits(key, s, before);
      assert items == before + [last];
      if last.primary {
        assert forall i | 0 <= i < |before| :: items[i] == before[i] && !before[i].primary;
        assert Demote(s + before) == Demote(s) + before;
      }
    }
  }

  /** Deduplicating entries whose keys are already there only joins their flags. */
  lemma {:induction false} DedupKnown<D, K>(key: D -> K, s: seq<Entry<D>>, items: seq<Entry<D>>)
    requires Distinct(key, s) && forall i | 0 <= i < |items| :: HasKey(key, s, key(items[i].data))
    ensures var r := Dedup(key, s + items);
            && |r| == |s|
            && forall i | 0 <= i < |s| ::
                 r[i] == Entry(s[i].data, s[i].primary || SomePrimary(key, items, key(s[i].data)))
  {
    if items == [] {
      assert s + items == s;
      DistinctIsKept(key, s);
    } else {
      var before, last := items[..|items| - 1], items[|items| - 1];
      DedupKnown(key, s, before);
      var all, r := s + items, Dedup(key, s + before);
      assert all[..|all| - 1] == s + before && all[|all| - 1] == last && items == before + [last];
      var w :| 0 <= w < |s| && key(s[w].data) == key(last.data);
      assert key(r[w].data) == key(last.data);
      assert HasKey(key, r, key(last.data)) && IndexOf(key, r, key(last.data)) == w;
      forall i | 0 <= i < |s|
        ensures Dedup(key, all)[i] == Entry(s[i].data, s[i].primary || SomePrimary(key, items, key(s[i].data)))
      {
        SomePrimarySnoc(key, before, last, key(s[i].data));
      }
    }
  }

  lemma {:induction false} PrimaryKeyIs<D, K>(key: D -> K, items: seq<Entry<D>>, k: K)
    requires OnePrimary(items)
    ensures SomePrimary(key, items, k) <==> PrimaryKey(key, items) == Some(k)
  {
    if items != [] {
      var before, last := items[..|items| - 1], items[|items| - 1];
      assert items == before + [last];
      SomePrimarySnoc(key, before, last, k);
      if last.primary {
        assert forall i | 0 <= i < |before| :: items[i] == before[i] && !before[i].primary;
      } else {
        PrimaryKeyIs(key, before, k);
      }
    }
  }

  /** Adding entries whose keys are all there moves the primary flag and nothing else. */
  lemma AddKnown<D, K>(key: D -> K, s: seq<Entry<D>>, items: seq<Entry<D>>)
    requires Distinct(key, s) && OnePrimary(items)
    requires forall i | 0 <= i < |items| :: HasKey(key, s, key(items[i].data))
    ensures Add(key, s, items) == Mark(key, s, PrimaryKey(key, items))
  {
    var k := PrimaryKey(key, items);
    var t := if k.Some? then Demote(s) else s;
    AppendAllSplits(key, s, items);
    forall i | 0 <= i < |items| ensures HasKey(key, t, key(items[i].data)) {
      assert HasKey(key, s, key(items[i].data));
      var j :| 0 <= j < |s| && key(s[j].data) == key(items[i].data);
      assert key(t[j].data) == key(s[j].data);
    }
    DedupKnown(key, t, items);
    MarkIs(key, s, t, items, Dedup(key, t + items));
  }

  lemma MarkIs<D, K>(key: D -> K, s: seq<Entry<D>>, t: seq<Entry<D>>, items: seq<Entry<D>>, r: seq<Entry<D>>)
    requires OnePrimary(items) && t == if PrimaryKey(key, items).Some? then Demote(s) else s
    requires |r| == |t|
    requires forall i | 0 <= i < |t| :: r[i] == Entry(t[i].data, t[i].primary || SomePrimary(key, items, key(t[i].data)))
    ensures r == Mark(key, s, PrimaryKey(key, items))
  {
    var m := Mark(key, s, PrimaryKey(key, items));
    forall i | 0 <= i < |s| ensures r[i] == m[i] {
      PrimaryKeyIs(key, items, key(s[i].data));
      assert t[i].data == s[i].data;
    }
  }

  /** After an add every key added is there, and a primary entry added is the only primary one. */
  ghost predicate Settled<D, K>(key: D -> K, s: seq<Entry<D>>, k: Option<K>) {
    k.Some? ==> HasKey(key, s, k.value) && forall i | 0 <= i < |s| :: s[i].primary <==> key(s[i].data) == k.value
  }

  function Later<K>(a: Option<K>, b: Option<K>): Option<K> {
    if b.Some? then b else a
  }

  lemma AddSettles<D, K(!new)>(key: D -> K, s: seq<Entry<D>>, items: seq<Entry<D>>, k: Option<K>)
    requires OnePrimary(items) && Settled(key, s, k)
    ensures Distinct(key, Add(key, s, items)) && Settled(key, Add(key, s, items), Later(k, PrimaryKey(key, items)))
    ensures forall j :: HasKey(key, Add(key, s, items), j) <==> HasKey(key, s, j) || HasKey(key, items, j)
  {
    var all, r := AppendAll(s, items), Add(key, s, items);
    AppendAllSplits(key, s, items);
    DedupIsFirsts(key, all);
    forall j ensures HasKey(key, all, j) <==> HasKey(key, s, j) || HasKey(key, items, j) {
      KeysOfBoth(key, if PrimaryKey(key, items).Some? then Demote(s) else s, s, items, j);
    }
    var p := Later(k, PrimaryKey(key, items));
    if p.Some? {
      PrimaryKeyIs(key, items, p.value);
      assert HasKey(key, all, p.value);
      forall i | 0 <= i < |r| ensures r[i].primary <==> key(r[i].data) == p.value {
        PrimaryKeyIs(key, items, key(r[i].data));
        FlagOfBoth(key, if PrimaryKey(key, items).Some? then Demote(s) else s, items, key(r[i].data));
        assert r[i].primary == SomePrimary(key, all, key(r[i].data));
      }
    }
  }

  lemma KeysOfBoth<D, K>(key: D -> K, t: seq<Entry<D>>, s: seq<Entry<D>>, items: seq<Entry<D>>, k: K)
    requires |t| == |s| && forall i | 0 <= i < |s| :: t[i].data == s[i].data
    ensures HasKey(key, t + items, k) <==> HasKey(key, s, k) || HasKey(key, items, k)
  {
    var all := t + items;
    if HasKey(key, s, k) {
      var i :| 0 <= i < |s| && key(s[i].data) == k;
      assert key(all[i].data) == k;
    }
    if HasKey(key, items, k) {
      var i :| 0 <= i < |items| && key(items[i].data) == k;
      assert all[|t| + i] == items[i];
    }
  }

  lemma FlagOfBoth<D, K>(key: D -> K, t: seq<Entry<D>>, items: seq<Entry<D>>, k: K)
    ensures SomePrimary(key, t + items, k) <==> SomePrimary(key, t, k) || SomePrimary(key, items, k)
  {
    var all := t + items;
    if SomePrimary(key, t, k) {
      var i :| 0 <= i < |t| && key(t[i].data) == k && t[i].primary;
      assert all[i] == t[i];
    }
    if SomePrimary(key, items, k) {
      var i :| 0 <= i < |items| && key(items[i].data) == k && items[i].primary;
      assert all[|t| + i] == items[i];
    }
  }

  function Adds<D, K(==)>(key: D -> K, s: seq<Entry<D>>, ops: seq<seq<Entry<D>>>): seq<Entry<D>> {
    if ops == [] then s else Add(key, Adds(key, s, ops[..|ops| - 1]), ops[|ops| - 1])
  }

  function LastKey<D, K>(key: D -> K, ops: seq<seq<Entry<D>>>): Option<K> {
    if ops == [] then None else Later(LastKey(key, ops[..|ops| - 1]), PrimaryKey(key, ops[|ops| - 1]))
  }

  ghost predicate Admissible<D>(ops: seq<seq<Entry<D>>>) {
    forall n | 0 <= n < |ops| :: OnePrimary(ops[n])
  }

  lemma {:induction false} AddsSettle<D, K(!new)>(key: D -> K, s: seq<Entry<D>>, ops: seq<seq<Entry<D>>>)
    requires Admissible(ops) && ops != []
    ensures Distinct(key, Adds(key, s, ops)) && Settled(key, Adds(key, s, ops), LastKey(key, ops))
    ensures forall n | 0 <= n < |ops| :: KeysIn(key, ops[n], Adds(key, s, ops))
  {
    var before, items := ops[..|ops| - 1], ops[|ops| - 1];
    assert OnePrimary(items);
    if before != [] {
      assert Admissible(before) by {
        forall n | 0 <= n < |before| ensures OnePrimary(before[n]) {
          assert ops[n] == before[n];
        }
      }
      AddsSettle(key, s, before);
    }
    var t := Adds(key, s, before);
    AddSettles(key, t, items, LastKey(key, before));
    forall n | 0 <= n < |ops| ensures KeysIn(key, ops[n], Adds(key, s, ops)) {
      if n < |before| {
        assert before[n] == ops[n] && KeysIn(key, before[n], t);
      }
    }
  }

  ghost predicate KeysIn<D, K(!new)>(key: D -> K, items: seq<Entry<D>>, s: seq<Entry<D>>) {
    forall k :: HasKey(key, items, k) ==> HasKey(key, s, k)
  }

  lemma {:induction false} AddsKnown<D, K(!new)>(key: D -> K, s: seq<Entry<D>>, ops: seq<seq<Entry<D>>>)
    requires Admissible(ops) && Distinct(key, s) && forall n | 0 <= n < |ops| :: KeysIn(key, ops[n], s)
    ensures Adds(key, s, ops) == Mark(key, s, LastKey(key, ops))
  {
    if ops != [] {
      var before, items := ops[..|ops| - 1], ops[|ops| - 1];
      forall n | 0 <= n < |before| ensures OnePrimary(before[n]) && KeysIn(key, before[n], s) {
        assert ops[n] == before[n];
      }
      AddsKnown(key, s, before);
      var t := Mark(key, s, LastKey(key, before));
      assert OnePrimary(items) && KeysIn(key, items, s);
      forall i | 0 <= i < |items| ensures HasKey(key, t, key(items[i].data)) {
        assert HasKey(key, items, key(items[i].data));
        var j :| 0 <= j < |s| && key(s[j].data) == key(items[i].data);
        assert key(t[j].data) == key(s[j].data);
      }
      AddKnown(key, t, items);
      assert Mark(key, t, PrimaryKey(key, items)) == Mark(key, s, LastKey(key, ops));
    }
  }

  /** Repeating any number of accepted adds changes nothing. */
  lemma RepeatedAddsChangeNothing<D, K(!new)>(key: D -> K, s: seq<Entry<D>>, ops: seq<seq<Entry<D>>>)
    requires Admissible(ops)
    ensures Adds(key, Adds(key, s, ops), ops) == Adds(key, s, ops)
  {
    if ops != [] {
      var r := Adds(key, s, ops);
      AddsSettle(key, s, ops);
      AddsKnown(key, r, ops);
      assert Mark(key, r, LastKey(key, ops)) == r;
    }
  }
}
