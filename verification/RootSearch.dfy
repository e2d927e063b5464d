/**
 Searching users and groups together: two sources, each listed by the database, give one page.
 */
module RootSearch {
  import opened Text
  import opened SortOrder

  const MAX_INT: int := 0x7FFF_FFFF_FFFF_FFFF
  const MAX_PAGE: nat := 200

  /** The 64-bit sum of two non-negative integers. */
  function Wrap(sum: nat): int {
    if sum > MAX_INT then sum - 0x1_0000_0000_0000_0000 else sum
  }

  function Slice<R>(s: seq<R>, offset: nat, count: nat): seq<R> {
    if offset >= |s| then []
    else if offset + count >= |s| then s[offset..]
    else s[offset..offset + count]
  }

  /** At most count elements, those from the offset on; fewer only where the list ends. */
  lemma SliceExactly<R>(s: seq<R>, offset: nat, count: nat)
    ensures var r := Slice(s, offset, count);
            && |r| <= count && (r != [] ==> offset + |r| <= |s|) && (|r| < count ==> offset + |r| >= |s|)
            && forall i | 0 <= i < |r| :: r[i] == s[offset + i]
  {
  }

  /** LIMIT and OFFSET on a listing; a negative limit is an error, which the search ignores. */
  function List<R>(s: seq<R>, offset: nat, limit: int): seq<R> {
    if limit < 0 then [] else Slice(s, offset, limit)
  }

  /** The sorted page: at most the first 200 of each source are fetched, sorted together and cut. */
  function SortedPage<R>(o: Sorting<R>, users: seq<R>, groups: seq<R>, offset: nat, count: nat): seq<R> {
    var fetch := Fetched(offset, count);
    Slice(StableSort(o, List(users, 0, fetch) + List(groups, 0, fetch)), offset, count)
  }

  function Fetched(offset: nat, count: nat): int {
    var end := Wrap(offset + count);
    if end > MAX_PAGE then MAX_PAGE else end
  }

  /** The two sources as they are listed without sorting, and sorted by the requested attribute. */
  datatype Content<R> = Content(users: seq<R>, groups: seq<R>, sortedUsers: seq<R>, sortedGroups: seq<R>)

  predicate Sizes<R>(c: Content<R>) {
    && |c.sortedUsers| == |c.users| && |c.sortedGroups| == |c.groups|
    && |c.users| + |c.groups| <= MAX_INT - MAX_PAGE
  }

  /** The pages that come out right whatever the sources hold, if they hold u users and g groups. */
  predicate Fits(u: nat, g: nat, offset: nat, count: nat) {
    offset + count <= MAX_PAGE || (u <= MAX_PAGE && g <= MAX_PAGE) || offset >= u + g || count == 0
  }

  /** The handler's paging, with the total counted first. */
  method Search<R>(c: Content<R>, sorting: Option<Sorting<R>>, offset: nat, count: nat) returns (total: nat, resources: seq<R>)
    requires Sizes(c) && offset < MAX_INT && count <= MAX_PAGE
    ensures total == |c.users| + |c.groups|
    ensures sorting.None? ==> resources == Slice(c.users + c.groups, offset, count)
    ensures sorting.Some? ==> resources == SortedPage(sorting.value, c.sortedUsers, c.sortedGroups, offset, count)
  {
    var totUsers := |c.users|;
    total := totUsers + |c.groups|;
    resources := [];
    if count > 0 {
      match sorting
      case Some(o) =>
        var fetchLimit := Wrap(offset + count);
        if fetchLimit > MAX_PAGE {
          fetchLimit := MAX_PAGE;
        }
        var combined := StableSort(o, List(c.sortedUsers, 0, fetchLimit) + List(c.sortedGroups, 0, fetchLimit));
        if offset < |combined| {
          var end := offset + count;
          if end > |combined| {
            end := |combined|;
          }
          resources := combined[offset..end];
        }
      case None =>
        SliceOfBoth(c.users, c.groups, offset, count);
        if offset < totUsers {
          var uCount := if count < totUsers - offset then count else totUsers - offset;
          resources := List(c.users, offset, uCount);
          if |resources| < count {
            var gNeeded := count - |resources|;
            resources := resources + List(c.groups, 0, gNeeded);
          }
        } else {
          var gOffset := offset - totUsers;
          resources := List(c.groups, gOffset, count);
        }
    } else {
      match sorting
      case Some(o) => SliceOfNothing(StableSort(o, List(c.sortedUsers, 0, Fetched(offset, 0)) + List(c.sortedGroups, 0, Fetched(offset, 0))), offset);
      case None => SliceOfNothing(c.users + c.groups, offset);
    }
  }

  lemma SliceOfBoth<R>(u: seq<R>, g: seq<R>, offset: nat, count: nat)
    ensures offset >= |u| ==> Slice(u + g, offset, count) == Slice(g, offset - |u|, count)
    ensures offset < |u| && offset + count <= |u| ==> Slice(u + g, offset, count) == Slice(u, offset, count)
    ensures offset < |u| && offset + count > |u| ==>
              Slice(u + g, offset, count) == Slice(u, offset, |u| - offset) + Slice(g, 0, count - (|u| - offset))
  {
    if offset >= |u| {
      SliceLater(u, g, offset, count);
    } else if offset + count <= |u| {
      SliceWithin(u, g, offset, count);
    } else {
      SliceAcross(u, g, offset, count);
    }
  }

  lemma PartOfLater<R>(u: seq<R>, g: seq<R>, from: nat, to: nat)
    requires |u| <= from <= to <= |u| + |g|
    ensures (u + g)[from..to] == g[from - |u|..to - |u|]
  {
  }

  lemma PartOfFirst<R>(u: seq<R>, g: seq<R>, from: nat, to: nat)
    requires from <= to <= |u|
    ensures (u + g)[from..to] == u[from..to]
  {
  }

  lemma PartOfBoth<R>(u: seq<R>, g: seq<R>, from: nat, to: nat)
    requires from <= |u| <= to <= |u| + |g|
    ensures (u + g)[from..to] == u[from..] + g[..to - |u|]
  {
  }

  lemma WholeEnd<R>(s: seq<R>, from: nat)
    requires from <= |s|
    ensures s[from..] == s[from..|s|] && s[..|s|] == s
  {
  }

  lemma SliceLater<R>(u: seq<R>, g: seq<R>, offset: nat, count: nat)
    requires offset >= |u|
    ensures Slice(u + g, offset, count) == Slice(g, offset - |u|, count)
  {
    if offset < |u| + |g| {
      WholeEnd(u + g, offset);
      WholeEnd(g, offset - |u|);
      PartOfLater(u, g, offset, if offset + count < |u| + |g| then offset + count else |u| + |g|);
    }
  }

  lemma SliceWithin<R>(u: seq<R>, g: seq<R>, offset: nat, count: nat)
    requires offset < |u| && offset + count <= |u|
    ensures Slice(u + g, offset, count) == Slice(u, offset, count)
  {
    WholeEnd(u + g, offset);
    WholeEnd(u, offset);
    PartOfFirst(u, g, offset, offset + count);
  }

  lemma SliceAcross<R>(u: seq<R>, g: seq<R>, offset: nat, count: nat)
    requires offset < |u| < offset + count
    ensures Slice(u + g, offset, count) == Slice(u, offset, |u| - offset) + Slice(g, 0, count - (|u| - offset))
  {
    WholeEnd(u + g, offset);
    WholeEnd(g, 0);
    PartOfBoth(u, g, offset, if offset + count < |u| + |g| then offset + count else |u| + |g|);
    assert g[..0] == [];
  }

  lemma ListIsPrefix<R>(s: seq<R>, limit: int)
    ensures var a := List(s, 0, limit); |a| <= |s| && a == s[..|a|] && (|a| == |s| || |a| == if limit < 0 then 0 else limit)
  {
  }

  lemma SliceOfNothing<R>(s: seq<R>, offset: nat)
    ensures Slice(s, offset, 0) == []
  {
  }

  // ----- when the sorted page is the slice of the sorted whole

  lemma SlicesAgree<R>(s: seq<R>, t: seq<R>, offset: nat, count: nat, n: nat)
    requires n <= |s| && n <= |t| && s[..n] == t[..n]
    requires n == offset + count || (n == |s| && n == |t|)
    ensures Slice(s, offset, count) == Slice(t, offset, count)
  {
    if n == |s| && n == |t| {
      assert s == s[..n] && t == t[..n];
    } else {
      assert Slice(s, offset, count) == s[..n][offset..];
      assert Slice(t, offset, count) == t[..n][offset..];
    }
  }

  lemma {:induction false} SortKeepsLength<R>(o: Sorting<R>, s: seq<R>)
    ensures |StableSort(o, s)| == |s|
  {
    if s != [] {
      SortKeepsLength(o, s[1..]);
      InsertAddsOne(o, s[0], StableSort(o, s[1..]));
    }
  }

  lemma {:induction false} InsertAddsOne<R>(o: Sorting<R>, x: R, s: seq<R>)
    ensures |InsertFront(o, x, s)| == |s| + 1
  {
    if s != [] && Less(o, s[0], x) {
      InsertAddsOne(o, x, s[1..]);
    }
  }

  lemma SortedPrefix<R>(o: Sorting<R>, s: seq<R>, n: nat)
    requires Sorted(o, s) && n <= |s|
    ensures Sorted(o, s[..n])
  {
  }

  /** With sources sorted by the comparator, a page that fits is the slice of the stable sort of everything. */
  lemma SortedPageIsSlice<R>(o: Sorting<R>, users: seq<R>, groups: seq<R>, offset: nat, count: nat)
    requires Sorted(o, users) && Sorted(o, groups) && |users| + |groups| <= MAX_INT - MAX_PAGE
    requires offset < MAX_INT && count <= MAX_PAGE && Fits(|users|, |groups|, offset, count)
    ensures SortedPage(o, users, groups, offset, count) == Slice(StableSort(o, users + groups), offset, count)
  {
    var fetch := Fetched(offset, count);
    var a, b := List(users, 0, fetch), List(groups, 0, fetch);
    SortKeepsLength(o, a + b);
    SortKeepsLength(o, users + groups);
    if count == 0 || offset >= |users| + |groups| {
      SliceOfNothing(StableSort(o, a + b), offset);
      SliceOfNothing(StableSort(o, users + groups), offset);
    } else {
      ListIsPrefix(users, fetch);
      ListIsPrefix(groups, fetch);
      PageOfPrefixes(o, users, groups, |a|, |b|, offset, count);
    }
  }

  lemma PageOfPrefixes<R>(o: Sorting<R>, users: seq<R>, groups: seq<R>, a: nat, b: nat, offset: nat, count: nat)
    requires Sorted(o, users) && Sorted(o, groups) && a <= |users| && b <= |groups|
    requires (a == |users| || offset + count <= a) && (b == |groups| || offset + count <= b)
    ensures Slice(StableSort(o, users[..a] + groups[..b]), offset, count) == Slice(StableSort(o, users + groups), offset, count)
  {
    SortedPrefix(o, users, a);
    SortedPrefix(o, groups, b);
    SortIsMerge(o, users, groups);
    SortIsMerge(o, users[..a], groups[..b]);
    var n := if offset + count <= a + b then offset + count else a + b;
    MergeOfPrefixes(o, users, groups, a, b, n);
    SlicesAgree(Merge(o, users[..a], groups[..b]), Merge(o, users, groups), offset, count, n);
  }

  // ----- and that no other page can be relied on

  /** Texts of one letter repeated, ordered by length. */
  function Tower(n: nat): string {
    seq(n, i => 'a')
  }

  lemma {:induction false} TowersAreOrdered(m: nat, n: nat)
    ensures Before(Tower(m), Tower(n)) <==> m < n
  {
    if m > 0 && n > 0 {
      assert Tower(m)[1..] == Tower(m - 1) && Tower(n)[1..] == Tower(n - 1);
      TowersAreOrdered(m - 1, n - 1);
    }
  }

  /** Resources that are their own sort value. */
  function Plainly(): Sorting<string> {
    Sorting((s: string) => Some(s), false, true, (s: string) => s)
  }

  function Towers(from: nat, count: nat): (r: seq<string>)
    ensures |r| == count && forall i | 0 <= i < count :: r[i] == Tower(from + i)
  {
    seq(count, i requires 0 <= i => Tower(from + i))
  }

  lemma TowersAreSorted(s: seq<string>, at: seq<nat>)
    requires |s| == |at| && forall i | 0 <= i < |s| :: s[i] == Tower(at[i])
    requires forall i, j | 0 <= i < j < |s| :: at[i] <= at[j]
    ensures Sorted(Plainly(), s)
  {
    forall i, j | 0 <= i < j < |s| ensures !Less(Plainly(), s[j], s[i]) {
      TowersAreOrdered(at[j], at[i]);
    }
  }

  lemma RunIsSorted(from: nat, count: nat)
    ensures Sorted(Plainly(), Towers(from, count))
  {
    TowersAreSorted(Towers(from, count), seq(count, i requires 0 <= i => from + i));
  }

  /** The merge of a source whose elements all come before the other's. */
  lemma {:induction false} MergeLater(u: seq<string>, g: seq<string>)
    requires forall i, j | 0 <= i < |u| && 0 <= j < |g| :: Less(Plainly(), g[j], u[i])
    ensures Merge(Plainly(), u, g) == g + u
  {
    if g != [] && u != [] {
      MergeLater(u, g[1..]);
      assert g == [g[0]] + g[1..];
    }
  }

  lemma {:induction false} MergeEarlier(u: seq<string>, g: seq<string>)
    requires forall i, j | 0 <= i < |u| && 0 <= j < |g| :: Less(Plainly(), u[i], g[j])
    ensures Merge(Plainly(), u, g) == u + g
  {
    if g != [] && u != [] {
      LessIsStrictWeakOrder(Plainly(), u[0], g[0], u[0]);
      MergeEarlier(u[1..], g);
      assert u == [u[0]] + u[1..];
    }
  }

  /** The earlier source is cut at 200, so what follows is not what should. */
  lemma CutDiffers(x: nat, y: nat, b: nat, offset: nat, count: nat)
    requires x > MAX_PAGE && b <= y && offset + count > MAX_PAGE && offset < x + y && count > 0
    ensures Slice(Towers(0, MAX_PAGE) + Towers(x, b), offset, count) != Slice(Towers(0, x) + Towers(x, y), offset, count)
  {
    var cut, whole := Towers(0, MAX_PAGE) + Towers(x, b), Towers(0, x) + Towers(x, y);
    var d: nat := if offset > MAX_PAGE then offset else MAX_PAGE;
    assert whole[d] == Tower(d);
    var right := Slice(whole, offset, count);
    assert d - offset < |right| && right[d - offset] == whole[d];
    if d < |cut| {
      assert cut[d] == Tower(x + (d - MAX_PAGE));
      assert |cut[d]| != |whole[d]|;
      var wrong := Slice(cut, offset, count);
      assert d - offset < |wrong| && wrong[d - offset] == cut[d];
    } else {
      assert |Slice(cut, offset, count)| <= d - offset;
    }
  }

  lemma Unfit(u: nat, g: nat, offset: nat, count: nat) returns (users: seq<string>, groups: seq<string>)
    requires u + g <= MAX_INT - MAX_PAGE && count <= MAX_PAGE && !Fits(u, g, offset, count)
    ensures |users| == u && |groups| == g && Sorted(Plainly(), users) && Sorted(Plainly(), groups)
    ensures SortedPage(Plainly(), users, groups, offset, count) != Slice(StableSort(Plainly(), users + groups), offset, count)
  {
    var o := Plainly();
    assert Fetched(offset, count) == MAX_PAGE;
    if u > MAX_PAGE {
      users, groups := Towers(0, u), Towers(u, g);
      var b := if g > MAX_PAGE then MAX_PAGE else g;
      assert List(users, 0, MAX_PAGE) == Towers(0, MAX_PAGE);
      assert List(groups, 0, MAX_PAGE) == Towers(u, b);
      SortsEarlier(u, g);
      SortsEarlierCut(u, b);
      CutDiffers(u, g, b, offset, count);
    } else {
      users, groups := Towers(g, u), Towers(0, g);
      assert List(groups, 0, MAX_PAGE) == Towers(0, MAX_PAGE);
      assert List(users, 0, MAX_PAGE) == Towers(g, u);
      SortsLater(g, u, g);
      SortsLater(g, u, MAX_PAGE);
      CutDiffers(g, u, u, offset, count);
    }
    RunIsSorted(0, u);
    RunIsSorted(u, g);
    RunIsSorted(g, u);
    RunIsSorted(0, g);
  }

  lemma SortsEarlier(x: nat, y: nat)
    ensures StableSort(Plainly(), Towers(0, x) + Towers(x, y)) == Towers(0, x) + Towers(x, y)
  {
    SortsEarlierOf(x, x, y);
  }

  lemma SortsEarlierCut(x: nat, y: nat)
    requires x > MAX_PAGE
    ensures StableSort(Plainly(), Towers(0, MAX_PAGE) + Towers(x, y)) == Towers(0, MAX_PAGE) + Towers(x, y)
  {
    SortsEarlierOf(MAX_PAGE, x, y);
  }

  lemma SortsEarlierOf(a: nat, x: nat, y: nat)
    requires a <= x
    ensures StableSort(Plainly(), Towers(0, a) + Towers(x, y)) == Towers(0, a) + Towers(x, y)
  {
    var u, g := Towers(0, a), Towers(x, y);
    RunIsSorted(0, a);
    RunIsSorted(x, y);
    forall i, j | 0 <= i < |u| && 0 <= j < |g| ensures Less(Plainly(), u[i], g[j]) {
      TowersAreOrdered(i, x + j);
      TowersAreOrdered(x + j, i);
    }
    SortIsMerge(Plainly(), u, g);
    MergeEarlier(u, g);
  }

  lemma SortsLater(x: nat, y: nat, a: nat)
    requires a <= x
    ensures StableSort(Plainly(), Towers(x, y) + Towers(0, a)) == Towers(0, a) + Towers(x, y)
  {
    var u, g := Towers(x, y), Towers(0, a);
    RunIsSorted(0, a);
    RunIsSorted(x, y);
    forall i, j | 0 <= i < |u| && 0 <= j < |g| ensures Less(Plainly(), g[j], u[i]) {
      TowersAreOrdered(j, x + i);
    }
    SortIsMerge(Plainly(), u, g);
    MergeLater(u, g);
  }

  ghost predicate AlwaysRight(u: nat, g: nat, offset: nat, count: nat) {
    forall users: seq<string>, groups: seq<string> | |users| == u && |groups| == g && Sorted(Plainly(), users) && Sorted(Plainly(), groups) ::
      SortedPage(Plainly(), users, groups, offset, count) == Slice(StableSort(Plainly(), users + groups), offset, count)
  }

  /** A sorted page is right for every content of the given sizes exactly if it fits. */
  lemma SortedPageIsRightExactlyIf(u: nat, g: nat, offset: nat, count: nat)
    requires u + g <= MAX_INT - MAX_PAGE && offset < MAX_INT && count <= MAX_PAGE
    ensures AlwaysRight(u, g, offset, count) <==> Fits(u, g, offset, count)
  {
    if Fits(u, g, offset, count) {
      forall users: seq<string>, groups: seq<string> | |users| == u && |groups| == g && Sorted(Plainly(), users) && Sorted(Plainly(), groups)
        ensures SortedPage(Plainly(), users, groups, offset, count) == Slice(StableSort(Plainly(), users + groups), offset, count)
      {
        SortedPageIsSlice(Plainly(), users, groups, offset, count);
      }
    } else {
      var users, groups := Unfit(u, g, offset, count);
      assert !AlwaysRight(u, g, offset, count);
    }
  }
}
