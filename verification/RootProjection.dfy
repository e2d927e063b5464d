/**
 Sorted searches that return only some attributes: the handler projects each resource before
 it sorts, so the attribute sorted by may be gone. Exactly when the page is right all the same.
 */
module RootProjection {
  import opened Text
  import opened SortOrder
  import opened RootSearch

  function Project<R>(p: R -> R, s: seq<R>): (r: seq<R>)
    ensures |r| == |s| && forall i | 0 <= i < |s| :: r[i] == p(s[i])
  {
    seq(|s|, i requires 0 <= i < |s| => p(s[i]))
  }

  /** The page that is cut when each source is listed in the attribute's order, projected, and sorted again. */
  function ProjectedPage<R>(o: Sorting<R>, p: R -> R, users: seq<R>, groups: seq<R>, offset: nat, count: nat): seq<R> {
    SortedPage(o, Project(p, users), Project(p, groups), offset, count)
  }

  /** The page of the whole, projected. */
  function RightPage<R>(o: Sorting<R>, p: R -> R, users: seq<R>, groups: seq<R>, offset: nat, count: nat): seq<R> {
    Project(p, Slice(StableSort(o, users + groups), offset, count))
  }

  ghost predicate Keeps<R(!new)>(o: Sorting<R>, p: R -> R) {
    forall r :: o.value(p(r)) == o.value(r)
  }

  lemma ProjectSlice<R>(p: R -> R, s: seq<R>, offset: nat, count: nat)
    ensures Slice(Project(p, s), offset, count) == Project(p, Slice(s, offset, count))
  {
  }

  lemma {:induction false} InsertProjected<R(!new)>(o: Sorting<R>, p: R -> R, x: R, s: seq<R>)
    requires Keeps(o, p)
    ensures InsertFront(o, p(x), Project(p, s)) == Project(p, InsertFront(o, x, s))
  {
    if s != [] && Less(o, s[0], x) {
      assert Project(p, s)[1..] == Project(p, s[1..]);
      InsertProjected(o, p, x, s[1..]);
    }
  }

  lemma {:induction false} SortProjected<R(!new)>(o: Sorting<R>, p: R -> R, s: seq<R>)
    requires Keeps(o, p)
    ensures StableSort(o, Project(p, s)) == Project(p, StableSort(o, s))
  {
    if s != [] {
      assert Project(p, s)[1..] == Project(p, s[1..]);
      SortProjected(o, p, s[1..]);
      InsertProjected(o, p, s[0], StableSort(o, s[1..]));
    }
  }

  /** A projection that keeps the sort attribute does no harm: the page is right wherever an unprojected one is. */
  lemma KeptPageIsRight<R(!new)>(o: Sorting<R>, p: R -> R, users: seq<R>, groups: seq<R>, offset: nat, count: nat)
    requires Keeps(o, p) && Sorted(o, users) && Sorted(o, groups) && |users| + |groups| <= MAX_INT - MAX_PAGE
    requires offset < MAX_INT && count <= MAX_PAGE && Fits(|users|, |groups|, offset, count)
    ensures ProjectedPage(o, p, users, groups, offset, count) == RightPage(o, p, users, groups, offset, count)
  {
    SortedPageIsSlice(o, Project(p, users), Project(p, groups), offset, count);
    assert Project(p, users) + Project(p, groups) == Project(p, users + groups);
    SortProjected(o, p, users + groups);
    ProjectSlice(p, StableSort(o, users + groups), offset, count);
  }

  // ----- a projection that drops the sort attribute

  ghost predicate Drops<R(!new)>(o: Sorting<R>, p: R -> R) {
    forall r :: o.value(p(r)) == None
  }

  /** Whatever the two sources hold, the page without the sort attribute shows the resources it should. */
  ghost predicate AlwaysRightDropped<R(!new)>(o: Sorting<R>, p: R -> R, u: nat, g: nat, offset: nat, count: nat) {
    forall users: seq<R>, groups: seq<R> | |users| == u && |groups| == g && Sorted(o, users) && Sorted(o, groups) ::
      ProjectedPage(o, p, users, groups, offset, count) == RightPage(o, p, users, groups, offset, count)
  }

  /** Without values the listed order stays: users before groups. */
  lemma DroppedStays<R>(o: Sorting<R>, s: seq<R>)
    requires forall i | 0 <= i < |s| :: o.value(s[i]) == None
    ensures Sorted(o, s) && StableSort(o, s) == s
  {
    SortedStays(o, s);
  }

  lemma DroppedPage<R(!new)>(o: Sorting<R>, p: R -> R, users: seq<R>, groups: seq<R>, offset: nat, count: nat)
    requires Drops(o, p)
    ensures var fetch := Fetched(offset, count);
            ProjectedPage(o, p, users, groups, offset, count)
            == Slice(Project(p, List(users, 0, fetch) + List(groups, 0, fetch)), offset, count)
  {
    var fetch := Fetched(offset, count);
    var u, g := Project(p, users), Project(p, groups);
    assert List(u, 0, fetch) + List(g, 0, fetch) == Project(p, List(users, 0, fetch) + List(groups, 0, fetch));
    DroppedStays(o, List(u, 0, fetch) + List(g, 0, fetch));
  }

  /** One source alone is listed in the right order already. */
  lemma OneSourceIsRight<R(!new)>(o: Sorting<R>, p: R -> R, users: seq<R>, groups: seq<R>, offset: nat, count: nat)
    requires Drops(o, p) && Sorted(o, users) && Sorted(o, groups) && |users| + |groups| <= MAX_INT - MAX_PAGE
    requires offset < MAX_INT && count <= MAX_PAGE && Fits(|users|, |groups|, offset, count)
    requires users == [] || groups == []
    ensures ProjectedPage(o, p, users, groups, offset, count) == RightPage(o, p, users, groups, offset, count)
  {
    var u, g := Project(p, users), Project(p, groups);
    assert u + g == Project(p, users + groups);
    DroppedStays(o, u);
    DroppedStays(o, g);
    DroppedStays(o, u + g);
    SortedPageIsSlice(o, u, g, offset, count);
    assert users + groups == users || users + groups == groups;
    SortedStays(o, users + groups);
    ProjectSlice(p, users + groups, offset, count);
  }

  lemma NothingIsRight<R(!new)>(o: Sorting<R>, p: R -> R, users: seq<R>, groups: seq<R>, offset: nat, count: nat)
    requires Drops(o, p) && Sorted(o, users) && Sorted(o, groups) && |users| + |groups| <= MAX_INT - MAX_PAGE
    requires offset < MAX_INT && count <= MAX_PAGE && (offset >= |users| + |groups| || count == 0)
    ensures ProjectedPage(o, p, users, groups, offset, count) == RightPage(o, p, users, groups, offset, count)
  {
    var u, g := Project(p, users), Project(p, groups);
    DroppedStays(o, u);
    DroppedStays(o, g);
    SortedPageIsSlice(o, u, g, offset, count);
    SortKeepsLength(o, u + g);
    SortKeepsLength(o, users + groups);
    if count == 0 {
      SliceOfNothing(StableSort(o, u + g), offset);
      SliceOfNothing(StableSort(o, users + groups), offset);
    }
  }

  // ----- where it shows

  /** The groups precede the users, those of a kind are tied, and all can be told apart after the projection. */
  ghost predicate Telling<R>(o: Sorting<R>, p: R -> R, user: nat -> R, group: nat -> R) {
    && (forall i, j :: Less(o, group(i), user(j)))
    && (forall i, j :: !Less(o, user(i), user(j)))
    && (forall i, j :: !Less(o, group(i), group(j)))
    && (forall i, j :: p(user(i)) != p(group(j)))
    && (forall i, j | i != j :: p(user(i)) != p(user(j)) && p(group(i)) != p(group(j)))
  }

  function Taken<R>(resource: nat -> R, count: nat): (s: seq<R>)
    ensures |s| == count && forall i | 0 <= i < count :: s[i] == resource(i)
  {
    seq(count, i requires 0 <= i => resource(i))
  }

  lemma {:induction false} GroupsFirst<R>(o: Sorting<R>, users: seq<R>, groups: seq<R>)
    requires forall i, j | 0 <= i < |users| && 0 <= j < |groups| :: Less(o, groups[j], users[i])
    ensures Merge(o, users, groups) == groups + users
  {
    if users != [] && groups != [] {
      GroupsFirst(o, users, groups[1..]);
      assert groups == [groups[0]] + groups[1..];
    }
  }

  lemma WholeOf<R>(o: Sorting<R>, p: R -> R, user: nat -> R, group: nat -> R, u: nat, g: nat)
    requires Telling(o, p, user, group)
    ensures Sorted(o, Taken(user, u)) && Sorted(o, Taken(group, g))
    ensures StableSort(o, Taken(user, u) + Taken(group, g)) == Taken(group, g) + Taken(user, u)
  {
    SortIsMerge(o, Taken(user, u), Taken(group, g));
    GroupsFirst(o, Taken(user, u), Taken(group, g));
  }

  /** Position k among the groups and then the users is not what it is among a users and then the groups. */
  lemma FirstDiffers<R>(o: Sorting<R>, p: R -> R, user: nat -> R, group: nat -> R, g: nat, a: nat, k: nat)
    requires Telling(o, p, user, group) && a > 0 && g > 0
    ensures (if k < g then p(group(k)) else p(user(k - g))) != (if k < a then p(user(k)) else p(group(k - a)))
  {
  }

  lemma FirstOfPage<R>(p: R -> R, user: nat -> R, group: nat -> R, u: nat, g: nat, a: nat, b: nat, offset: nat, count: nat)
    requires a <= u && b <= g && offset < a + b && count > 0
    ensures var page := Slice(Project(p, Taken(user, u)[..a] + Taken(group, g)[..b]), offset, count);
            page != [] && page[0] == if offset < a then p(user(offset)) else p(group(offset - a))
  {
  }

  lemma FirstOfWhole<R>(p: R -> R, user: nat -> R, group: nat -> R, u: nat, g: nat, offset: nat, count: nat)
    requires offset < u + g && count > 0
    ensures var page := Project(p, Slice(Taken(group, g) + Taken(user, u), offset, count));
            page != [] && page[0] == if offset < g then p(group(offset)) else p(user(offset - g))
  {
  }

  /** Users listed before groups that should precede them: already the first resource of the page is another one. */
  lemma TwoSourcesDiffer<R(!new)>(o: Sorting<R>, p: R -> R, user: nat -> R, group: nat -> R, u: nat, g: nat, offset: nat, count: nat)
    requires Drops(o, p) && Telling(o, p, user, group)
    requires u > 0 && g > 0 && offset < u + g && 0 < count <= MAX_PAGE && offset < MAX_INT && u + g <= MAX_INT - MAX_PAGE
    ensures !AlwaysRightDropped(o, p, u, g, offset, count)
  {
    var users, groups := Taken(user, u), Taken(group, g);
    var fetch := Fetched(offset, count);
    var a, b := |List(users, 0, fetch)|, |List(groups, 0, fetch)|;
    assert List(users, 0, fetch) == users[..a] && List(groups, 0, fetch) == groups[..b];
    WholeOf(o, p, user, group, u, g);
    DroppedPage(o, p, users, groups, offset, count);
    FirstOfWhole(p, user, group, u, g, offset, count);
    if offset < a + b {
      FirstOfPage(p, user, group, u, g, a, b, offset, count);
      FirstDiffers(o, p, user, group, g, a, offset);
    }
  }

  /** Of one source only the first 200 are there, and the page is too short. */
  lemma TooShort<R(!new)>(o: Sorting<R>, p: R -> R, user: nat -> R, group: nat -> R, u: nat, g: nat, offset: nat, count: nat)
    requires Drops(o, p) && Telling(o, p, user, group)
    requires (u == 0 || g == 0) && !Fits(u, g, offset, count)
    requires count <= MAX_PAGE && offset < MAX_INT && u + g <= MAX_INT - MAX_PAGE
    ensures !AlwaysRightDropped(o, p, u, g, offset, count)
  {
    var users, groups := Taken(user, u), Taken(group, g);
    WholeOf(o, p, user, group, u, g);
    DroppedPage(o, p, users, groups, offset, count);
    assert Fetched(offset, count) == MAX_PAGE;
    var cut := List(users, 0, MAX_PAGE) + List(groups, 0, MAX_PAGE);
    assert |cut| == MAX_PAGE;
    var page, right := ProjectedPage(o, p, users, groups, offset, count), RightPage(o, p, users, groups, offset, count);
    assert |right| == if offset + count < u + g then count else u + g - offset;
    assert |page| == if offset < MAX_PAGE then MAX_PAGE - offset else 0;
    assert page != right;
  }

  /** The page fits and only one source holds anything, or it is empty. */
  predicate Harmless(u: nat, g: nat, offset: nat, count: nat) {
    (Fits(u, g, offset, count) && (u == 0 || g == 0)) || offset >= u + g || count == 0
  }

  /**
   However resources are sorted, a page of them without the attribute they are sorted by is right for
   every content of the given sizes if it fits and only one source holds anything, or it is empty; and
   only then, wherever there are groups that precede users and resources can be told apart.
   */
  lemma DroppedPageIsRightExactlyIf<R(!new)>(o: Sorting<R>, p: R -> R, u: nat, g: nat, offset: nat, count: nat)
    requires Drops(o, p) && u + g <= MAX_INT - MAX_PAGE && offset < MAX_INT && count <= MAX_PAGE
    ensures Harmless(u, g, offset, count) ==> AlwaysRightDropped(o, p, u, g, offset, count)
    ensures (exists user: nat -> R, group: nat -> R :: Telling(o, p, user, group)) && AlwaysRightDropped(o, p, u, g, offset, count) ==>
              Harmless(u, g, offset, count)
  {
    if Harmless(u, g, offset, count) {
      forall users: seq<R>, groups: seq<R> | |users| == u && |groups| == g && Sorted(o, users) && Sorted(o, groups)
        ensures ProjectedPage(o, p, users, groups, offset, count) == RightPage(o, p, users, groups, offset, count)
      {
        if offset >= u + g || count == 0 {
          NothingIsRight(o, p, users, groups, offset, count);
        } else {
          OneSourceIsRight(o, p, users, groups, offset, count);
        }
      }
    } else if exists user: nat -> R, group: nat -> R :: Telling(o, p, user, group) {
      var user: nat -> R, group: nat -> R :| Telling(o, p, user, group);
      if u > 0 && g > 0 {
        TwoSourcesDiffer(o, p, user, group, u, g, offset, count);
      } else {
        TooShort(o, p, user, group, u, g, offset, count);
      }
    }
  }

  // ----- a resource of which only the sort attribute matters

  datatype Entry = Entry(kind: bool, id: nat, value: Option<string>)

  function ByValue(descending: bool, caseExact: bool, lower: string -> string): Sorting<Entry> {
    Sorting((e: Entry) => e.value, descending, caseExact, lower)
  }

  function Drop(): Entry -> Entry {
    (e: Entry) => e.(value := None)
  }

  /**
   With identifiers kept it is so in either direction and with either comparison: resources with a
   value precede those without ascending, and follow them descending.
   */
  lemma EntriesTell(descending: bool, caseExact: bool, lower: string -> string, u: nat, g: nat, offset: nat, count: nat)
    requires u + g <= MAX_INT - MAX_PAGE && offset < MAX_INT && count <= MAX_PAGE
    ensures AlwaysRightDropped(ByValue(descending, caseExact, lower), Drop(), u, g, offset, count) <==> Harmless(u, g, offset, count)
  {
    var o, p := ByValue(descending, caseExact, lower), Drop();
    var user := (i: nat) => Entry(true, i, if descending then Some("") else None);
    var group := (i: nat) => Entry(false, i, if descending then None else Some(""));
    assert Telling(o, p, user, group) by {
      ValueBeforeIsTotal(o, "", "");
    }
    DroppedPageIsRightExactlyIf(o, p, u, g, offset, count);
  }
}
