/**
 The order of sorted listings: how two resources compare, and what a stable sort by that
 comparison is.
 */
module SortOrder {
  import opened Text

  /** Text in the order of its characters. */
  predicate Before(s: string, t: string) {
    if t == "" then false
    else if s == "" then true
    else s[0] < t[0] || (s[0] == t[0] && Before(s[1..], t[1..]))
  }

  lemma {:induction false} BeforeIsTotal(s: string, t: string)
    ensures !(Before(s, t) && Before(t, s))
    ensures s == t <==> !Before(s, t) && !Before(t, s)
  {
    if s != "" && t != "" {
      BeforeIsTotal(s[1..], t[1..]);
      assert s == [s[0]] + s[1..] && t == [t[0]] + t[1..];
    }
  }

  lemma {:induction false} BeforeIsTransitive(s: string, t: string, u: string)
    requires Before(s, t) && Before(t, u)
    ensures Before(s, u)
  {
    if s != "" && s[0] == t[0] == u[0] {
      BeforeIsTransitive(s[1..], t[1..], u[1..]);
    }
  }

  /** How to sort: the value of the sort attribute, if there is one, and how values compare. */
  datatype Sorting<!R> = Sorting(value: R -> Option<string>, descending: bool, caseExact: bool, lower: string -> string)

  predicate ValueBefore<R>(o: Sorting<R>, s: string, t: string) {
    if o.caseExact || o.lower(s) == o.lower(t) then Before(s, t) else Before(o.lower(s), o.lower(t))
  }

  /** The comparison: a missing value comes last ascending and first descending. */
  predicate Less<R>(o: Sorting<R>, a: R, b: R) {
    match (o.value(a), o.value(b))
    case (None, None) => false
    case (None, Some(_)) => o.descending
    case (Some(_), None) => !o.descending
    case (Some(s), Some(t)) => if o.descending then ValueBefore(o, t, s) else ValueBefore(o, s, t)
  }

  lemma ValueBeforeIsTotal<R>(o: Sorting<R>, s: string, t: string)
    ensures !(ValueBefore(o, s, t) && ValueBefore(o, t, s))
    ensures s == t <==> !ValueBefore(o, s, t) && !ValueBefore(o, t, s)
  {
    BeforeIsTotal(s, t);
    BeforeIsTotal(o.lower(s), o.lower(t));
  }

  lemma ValueBeforeIsTransitive<R>(o: Sorting<R>, s: string, t: string, u: string)
    requires ValueBefore(o, s, t) && ValueBefore(o, t, u)
    ensures ValueBefore(o, s, u)
  {
    var ls, lt, lu := o.lower(s), o.lower(t), o.lower(u);
    BeforeIsTotal(ls, lt);
    BeforeIsTotal(lt, lu);
    if o.caseExact || (ls == lt && lt == lu) {
      BeforeIsTransitive(s, t, u);
    } else if ls != lt && lt != lu {
      BeforeIsTransitive(ls, lt, lu);
      BeforeIsTotal(ls, lu);
    }
  }

  /** A strict weak order: nothing precedes itself, and what does not precede is transitive too. */
  lemma LessIsStrictWeakOrder<R>(o: Sorting<R>, a: R, b: R, c: R)
    ensures !Less(o, a, a) && !(Less(o, a, b) && Less(o, b, a))
    ensures Less(o, a, b) && Less(o, b, c) ==> Less(o, a, c)
    ensures !Less(o, a, b) && !Less(o, b, c) ==> !Less(o, a, c)
  {
    match (o.value(a), o.value(b), o.value(c))
    case (Some(s), Some(t), Some(u)) =>
      ValueBeforeIsTotal(o, s, s);
      ValueBeforeIsTotal(o, s, t);
      ValueBeforeIsTotal(o, t, u);
      ValueBeforeIsTotal(o, s, u);
      ChainsAreTransitive(o, s, t, u);
      ChainsAreTransitive(o, u, t, s);
    case (Some(s), Some(t), None) =>
      ValueBeforeIsTotal(o, s, s);
      ValueBeforeIsTotal(o, s, t);
    case (Some(s), None, _) => ValueBeforeIsTotal(o, s, s);
    case (None, _, _) =>
  }

  lemma ChainsAreTransitive<R>(o: Sorting<R>, s: string, t: string, u: string)
    ensures ValueBefore(o, s, t) && ValueBefore(o, t, u) ==> ValueBefore(o, s, u)
  {
    if ValueBefore(o, s, t) && ValueBefore(o, t, u) {
      ValueBeforeIsTransitive(o, s, t, u);
    }
  }

  /** The texts agree up to position k, where s ends first or has the smaller character. */
  predicate FirstDifference(s: string, t: string, k: nat) {
    k <= |s| && k < |t| && s[..k] == t[..k] && (k == |s| || s[k] < t[k])
  }

  lemma {:induction false} BeforeExactlyIf(s: string, t: string)
    ensures Before(s, t) <==> exists k: nat :: FirstDifference(s, t, k)
  {
    if t == "" {
    } else if s == "" {
      assert FirstDifference(s, t, 0);
    } else if s[0] != t[0] {
      assert s[0] < t[0] ==> FirstDifference(s, t, 0);
      assert forall k: nat :: FirstDifference(s, t, k) && k > 0 ==> s[..k][0] == t[..k][0];
    } else {
      BeforeExactlyIf(s[1..], t[1..]);
      FirstDifferenceShifts(s, t);
    }
  }

  lemma FirstDifferenceShifts(s: string, t: string)
    requires s != "" && t != "" && s[0] == t[0]
    ensures (exists k: nat :: FirstDifference(s, t, k)) <==> exists k: nat :: FirstDifference(s[1..], t[1..], k)
  {
    if k: nat :| FirstDifference(s, t, k) {
      assert k > 0;
      assert s[1..][..k - 1] == s[..k][1..] && t[1..][..k - 1] == t[..k][1..];
      assert FirstDifference(s[1..], t[1..], k - 1);
    }
    if k: nat :| FirstDifference(s[1..], t[1..], k) {
      assert s[..k + 1] == [s[0]] + s[1..][..k] && t[..k + 1] == [t[0]] + t[1..][..k];
      assert FirstDifference(s, t, k + 1);
    }
  }

  /**
   Two values are compared as they are, if the attribute is case-exact, and otherwise in lower case first;
   descending turns this round. Of a value and none the value comes first ascending and last descending.
   */
  lemma LessExactlyIf<R>(o: Sorting<R>, a: R, b: R)
    ensures o.value(a) == None && o.value(b) == None ==> !Less(o, a, b) && !Less(o, b, a)
    ensures o.value(a) != None && o.value(b) == None ==> (Less(o, a, b) <==> !o.descending) && (Less(o, b, a) <==> o.descending)
    ensures o.value(a) != None && o.value(b) != None && o.caseExact ==>
              var s, t := o.value(a).value, o.value(b).value;
              Less(o, a, b) <==> if o.descending then Before(t, s) else Before(s, t)
    ensures o.value(a) != None && o.value(b) != None && !o.caseExact ==>
              var s, t := o.value(a).value, o.value(b).value;
              var ls, lt := o.lower(s), o.lower(t);
              Less(o, a, b) <==> if o.descending then Before(lt, ls) || (lt == ls && Before(t, s)) else Before(ls, lt) || (ls == lt && Before(s, t))
  {
    if o.value(a).Some? && o.value(b).Some? {
      BeforeIsTotal(o.lower(o.value(a).value), o.lower(o.value(b).value));
    }
  }

  // ----- stable sorting

  /** x goes before the first element that does not precede it. */
  function InsertFront<R>(o: Sorting<R>, x: R, s: seq<R>): seq<R> {
    if s == [] || !Less(o, s[0], x) then [x] + s else [s[0]] + InsertFront(o, x, s[1..])
  }

  function StableSort<R>(o: Sorting<R>, s: seq<R>): seq<R> {
    if s == [] then [] else InsertFront(o, s[0], StableSort(o, s[1..]))
  }

  predicate Sorted<R>(o: Sorting<R>, s: seq<R>) {
    forall i, j | 0 <= i < j < |s| :: !Less(o, s[j], s[i])
  }

  predicate Tied<R>(o: Sorting<R>, a: R, b: R) {
    !Less(o, a, b) && !Less(o, b, a)
  }

  /** The elements tied with x, in order. */
  function TiedWith<R>(o: Sorting<R>, x: R, s: seq<R>): seq<R> {
    if s == [] then []
    else (if Tied(o, x, s[0]) then [s[0]] else []) + TiedWith(o, x, s[1..])
  }

  lemma {:induction false} InsertKeepsTies<R>(o: Sorting<R>, x: R, s: seq<R>, y: R)
    ensures TiedWith(o, y, InsertFront(o, x, s)) == (if Tied(o, y, x) then [x] else []) + TiedWith(o, y, s)
  {
    if s != [] && Less(o, s[0], x) {
      InsertKeepsTies(o, x, s[1..], y);
      LessIsStrictWeakOrder(o, s[0], y, x);
      assert InsertFront(o, x, s)[1..] == InsertFront(o, x, s[1..]);
      assert Tied(o, y, x) ==> !Tied(o, y, s[0]);
    } else {
      assert InsertFront(o, x, s)[1..] == s;
    }
  }

  lemma {:induction false} InsertMembers<R>(o: Sorting<R>, x: R, s: seq<R>)
    ensures forall i | 0 <= i < |InsertFront(o, x, s)| :: InsertFront(o, x, s)[i] == x || InsertFront(o, x, s)[i] in s
  {
    var r := InsertFront(o, x, s);
    if s != [] && Less(o, s[0], x) {
      InsertMembers(o, x, s[1..]);
      assert s == [s[0]] + s[1..];
      forall i | 0 <= i < |r| ensures r[i] == x || r[i] in s {
        assert i > 0 ==> r[i] == InsertFront(o, x, s[1..])[i - 1];
      }
    }
  }

  lemma {:induction false} InsertKeepsSorted<R>(o: Sorting<R>, x: R, s: seq<R>)
    requires Sorted(o, s)
    ensures Sorted(o, InsertFront(o, x, s))
  {
    var r := InsertFront(o, x, s);
    if s != [] && Less(o, s[0], x) {
      InsertKeepsSorted(o, x, s[1..]);
      InsertMembers(o, x, s[1..]);
      forall j | 0 < j < |r| ensures !Less(o, r[j], s[0]) {
        LessIsStrictWeakOrder(o, s[0], x, s[0]);
        assert r[1..] == InsertFront(o, x, s[1..]) && r[j] == r[1..][j - 1];
        assert r[1..][j - 1] == x || r[1..][j - 1] in s[1..];
        if r[j] != x {
          var i :| 0 <= i < |s| - 1 && s[1..][i] == r[j];
          assert s[1 + i] == r[j];
        }
      }
    } else {
      forall j | 0 <= j < |s| ensures !Less(o, s[j], x) {
        LessIsStrictWeakOrder(o, s[j], s[0], x);
      }
    }
  }

  /** The result is sorted, and within a tie the order is as before. */
  lemma {:induction false} StableSortSorts<R>(o: Sorting<R>, s: seq<R>)
    ensures Sorted(o, StableSort(o, s))
    ensures forall y :: TiedWith(o, y, StableSort(o, s)) == TiedWith(o, y, s)
  {
    if s != [] {
      StableSortSorts(o, s[1..]);
      var t := StableSort(o, s[1..]);
      InsertKeepsSorted(o, s[0], t);
      forall y ensures TiedWith(o, y, StableSort(o, s)) == TiedWith(o, y, s) {
        InsertKeepsTies(o, s[0], t, y);
      }
    }
  }

  lemma HeadIsTied<R>(o: Sorting<R>, s: seq<R>)
    requires s != []
    ensures TiedWith(o, s[0], s) != [] && TiedWith(o, s[0], s)[0] == s[0]
  {
    LessIsStrictWeakOrder(o, s[0], s[0], s[0]);
  }

  /** There is only one such list, so any stable sort computes it. */
  lemma {:induction false} StableSortIsUnique<R(!new)>(o: Sorting<R>, r: seq<R>, t: seq<R>)
    requires Sorted(o, r) && Sorted(o, t)
    requires forall y :: TiedWith(o, y, r) == TiedWith(o, y, t)
    ensures r == t
  {
    if r == [] {
      if t != [] {
        HeadIsTied(o, t);
      }
    } else {
      HeadIsTied(o, r);
      assert TiedWith(o, r[0], t) != [];
      HeadIsTied(o, t);
      HeadsAreTied(o, r, t);
      assert TiedWith(o, r[0], t)[0] == t[0];
      forall y ensures TiedWith(o, y, r[1..]) == TiedWith(o, y, t[1..]) {
        assert TiedWith(o, y, r) == TiedWith(o, y, t);
        var one := if Tied(o, y, r[0]) then [r[0]] else [];
        assert TiedWith(o, y, r) == one + TiedWith(o, y, r[1..]);
        assert TiedWith(o, y, t) == one + TiedWith(o, y, t[1..]);
        assert TiedWith(o, y, r[1..]) == (one + TiedWith(o, y, r[1..]))[|one|..];
      }
      StableSortIsUnique(o, r[1..], t[1..]);
      assert r == [r[0]] + r[1..] && t == [t[0]] + t[1..];
    }
  }

  lemma {:induction false} TiedAreMembers<R>(o: Sorting<R>, y: R, s: seq<R>)
    requires TiedWith(o, y, s) != []
    ensures TiedWith(o, y, s)[0] in s && Tied(o, y, TiedWith(o, y, s)[0])
  {
    if !Tied(o, y, s[0]) {
      TiedAreMembers(o, y, s[1..]);
    }
  }

  lemma HeadsAreTied<R>(o: Sorting<R>, r: seq<R>, t: seq<R>)
    requires r != [] && t != [] && Sorted(o, r) && Sorted(o, t)
    requires TiedWith(o, r[0], r) == TiedWith(o, r[0], t) != []
    requires TiedWith(o, t[0], r) == TiedWith(o, t[0], t) != []
    ensures Tied(o, r[0], t[0])
  {
    TiedAreMembers(o, r[0], t);
    TiedAreMembers(o, t[0], r);
    var a, b := TiedWith(o, r[0], t)[0], TiedWith(o, t[0], r)[0];
    var i :| 0 <= i < |t| && t[i] == a;
    var j :| 0 <= j < |r| && r[j] == b;
    LessIsStrictWeakOrder(o, t[0], t[0], t[0]);
    LessIsStrictWeakOrder(o, r[0], r[0], r[0]);
    LessIsStrictWeakOrder(o, r[0], a, t[0]);
    LessIsStrictWeakOrder(o, a, r[0], t[0]);
    LessIsStrictWeakOrder(o, t[0], b, r[0]);
    LessIsStrictWeakOrder(o, b, t[0], r[0]);
    assert !Less(o, a, t[0]);
    assert !Less(o, b, r[0]);
  }

  // ----- merging two sorted lists

  function Merge<R>(o: Sorting<R>, u: seq<R>, g: seq<R>): (r: seq<R>)
    ensures |r| == |u| + |g|
  {
    if u == [] then g
    else if g == [] then u
    else if Less(o, g[0], u[0]) then [g[0]] + Merge(o, u, g[1..])
    else [u[0]] + Merge(o, u[1..], g)
  }

  lemma {:induction false} MergeInserts<R>(o: Sorting<R>, x: R, u: seq<R>, g: seq<R>)
    requires Sorted(o, [x] + u)
    ensures InsertFront(o, x, Merge(o, u, g)) == Merge(o, [x] + u, g)
    decreases |g|
  {
    var xu := [x] + u;
    assert xu[1..] == u && xu[0] == x;
    if u != [] {
      assert xu[1] == u[0];
    }
    if g == [] {
      assert u == [] || !Less(o, u[0], x);
    } else if Less(o, g[0], x) {
      MergeInserts(o, x, u, g[1..]);
      if u != [] {
        LessIsStrictWeakOrder(o, g[0], u[0], x);
      }
      assert Merge(o, u, g) == [g[0]] + Merge(o, u, g[1..]) by {
        if u == [] {
          assert g == [g[0]] + g[1..];
        }
      }
      assert Merge(o, u, g)[1..] == Merge(o, u, g[1..]);
    } else {
      assert Merge(o, u, g)[0] == g[0] || (u != [] && Merge(o, u, g)[0] == u[0]);
    }
  }

  lemma {:induction false} SortedStays<R>(o: Sorting<R>, s: seq<R>)
    requires Sorted(o, s)
    ensures StableSort(o, s) == s
  {
    if s != [] {
      SortedStays(o, s[1..]);
      assert s == [s[0]] + s[1..];
    }
  }

  /** Sorting two sorted lists one after the other, stably, is merging them, the first one's ties first. */
  lemma {:induction false} SortIsMerge<R>(o: Sorting<R>, u: seq<R>, g: seq<R>)
    requires Sorted(o, u) && Sorted(o, g)
    ensures StableSort(o, u + g) == Merge(o, u, g)
  {
    if u == [] {
      assert u + g == g;
      SortedStays(o, g);
    } else {
      assert (u + g)[1..] == u[1..] + g && (u + g)[0] == u[0];
      SortIsMerge(o, u[1..], g);
      assert [u[0]] + u[1..] == u;
      MergeInserts(o, u[0], u[1..], g);
    }
  }

  /** The first n of the merge need only the first n of each. */
  lemma {:induction false} MergeOfPrefixes<R>(o: Sorting<R>, u: seq<R>, g: seq<R>, a: nat, b: nat, n: nat)
    requires a <= |u| && b <= |g| && (a == |u| || n <= a) && (b == |g| || n <= b) && n <= a + b
    ensures Merge(o, u[..a], g[..b])[..n] == Merge(o, u, g)[..n]
    decreases n
  {
    if n == 0 {
    } else if u == [] {
      assert u[..a] == [];
    } else if g == [] {
      assert g[..b] == [];
    } else {
      var p, q := u[..a], g[..b];
      assert p[0] == u[0] && q[0] == g[0];
      if Less(o, g[0], u[0]) {
        assert q[1..] == g[1..][..b - 1];
        MergeOfPrefixes(o, u, g[1..], a, b - 1, n - 1);
        PrefixOfCons(g[0], Merge(o, p, q[1..]), Merge(o, u, g[1..]), n);
      } else {
        assert p[1..] == u[1..][..a - 1];
        MergeOfPrefixes(o, u[1..], g, a - 1, b, n - 1);
        PrefixOfCons(u[0], Merge(o, p[1..], q), Merge(o, u[1..], g), n);
      }
    }
  }

  lemma PrefixOfCons<R>(x: R, s: seq<R>, t: seq<R>, n: nat)
    requires 0 < n <= |s| + 1 && n <= |t| + 1 && s[..n - 1] == t[..n - 1]
    ensures ([x] + s)[..n] == ([x] + t)[..n]
  {
    assert ([x] + s)[..n] == [x] + s[..n - 1];
    assert ([x] + t)[..n] == [x] + t[..n - 1];
  }
}
