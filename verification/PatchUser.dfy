/**
 PATCH on users (section 3.5.2 of RFC 7644): the eight multi-valued attributes are edited in
 place in a loaded copy, a deep clone decides whether anything is written, and a write is
 guarded by the version.
 */
module PatchUser {
  import opened Text
  import opened MultiValued
  import opened PatchValues

  // ----- what the operations do, on values

  /** emails, phoneNumbers, addresses, ims, photos, entitlements, roles, x509Certificates */
  const COUNT: nat := 8

  /** A user's mutable attributes: the multi-valued ones, and the rest together. */
  datatype Profile<D, F> = Profile(lists: seq<seq<Entry<D>>>, fields: F)

  /** An incoming entry; without data it is one that cannot be built. */
  datatype Item<D> = Item(data: Option<D>, primary: bool)

  datatype Op<!D, !V, !F> =
    | Add(at: nat, items: Option<seq<Item<D>>>)               // None: neither array nor object
    | Replace(at: nat, given: Option<Option<seq<Item<D>>>>)   // None: null
    | Update(at: nat, matches: Option<Entry<D> -> bool>, name: string, value: Value<V>, order: Order<D, V>)  // None: no filter
    | Remove(at: nat, drops: Entry<D> -> bool)
    | Clear(at: nat)
    | Single(change: F -> Option<F>)

  /** Keys and setters per attribute; manager data filled in; a user name that is taken. */
  datatype Server<!D, !K, !V, !F> = Server(
    key: nat -> (D -> K),
    write: nat -> Writer<D, V>,
    resolve: F -> F,
    conflict: (F, F) -> bool)

  predicate OnList<D, V, F>(op: Op<D, V, F>) {
    op.Single? || op.at < COUNT
  }

  function PrimaryCount<D>(items: seq<Item<D>>): nat {
    if items == [] then 0
    else PrimaryCount(items[..|items| - 1]) + if items[|items| - 1].primary then 1 else 0
  }

  function BuildAll<D>(items: seq<Item<D>>): (r: Option<seq<Entry<D>>>)
    ensures r.Some? ==> |r.value| == |items| && forall i | 0 <= i < |items| :: r.value[i].primary == items[i].primary
  {
    if items == [] then Some([])
    else
      var last := items[|items| - 1];
      match BuildAll(items[..|items| - 1])
      case None => None
      case Some(built) => if last.data.None? then None else Some(built + [Entry(last.data.value, last.primary)])
  }

  /** The entries of an accepted list: at most one is primary, and all can be built. */
  function Accept<D>(items: seq<Item<D>>): Option<seq<Entry<D>>> {
    if PrimaryCount(items) > 1 then None else BuildAll(items)
  }

  function WithList<D, F>(p: Profile<D, F>, at: nat, list: Option<seq<Entry<D>>>): Option<Profile<D, F>> {
    if at < |p.lists| && list.Some? then Some(p.(lists := p.lists[at := list.value])) else None
  }

  function AddTo<D, K(==)>(key: D -> K, s: seq<Entry<D>>, items: Option<seq<Item<D>>>): Option<seq<Entry<D>>> {
    if items.None? || Accept(items.value).None? then None else Some(MultiValued.Add(key, s, Accept(items.value).value))
  }

  /** One operation; None is an error, which rejects the whole request. */
  function Apply<D, K(==), V, F>(server: Server<D, K, V, F>, op: Op<D, V, F>, p: Profile<D, F>): Option<Profile<D, F>>
    requires |p.lists| == COUNT && OnList(op)
  {
    match op
    case Add(at, items) => WithList(p, at, AddTo(server.key(at), p.lists[at], items))
    case Replace(at, items) => WithList(p, at, if items.None? then Some([]) else AddTo(server.key(at), [], items.value))
    case Update(at, matches, name, value, order) =>
      if matches.None? then None
      else WithList(p, at, MultiValued.Update(server.key(at), p.lists[at], matches.value,
                                              SetterOf(server.write(at), name, order), SetsPrimaryTrue(name, value)))
    case Remove(at, matches) => WithList(p, at, Some(Without(p.lists[at], matches)))
    case Clear(at) => WithList(p, at, Some([]))
    case Single(change) => if change(p.fields).None? then None else Some(p.(fields := change(p.fields).value))
  }

  ghost predicate Ops<D, V, F>(ops: seq<Op<D, V, F>>) {
    forall n | 0 <= n < |ops| :: OnList(ops[n])
  }

  function Run<D, K(==), V, F>(server: Server<D, K, V, F>, ops: seq<Op<D, V, F>>, p: Profile<D, F>): (r: Option<Profile<D, F>>)
    requires |p.lists| == COUNT && Ops(ops)
    ensures r.Some? ==> |r.value.lists| == COUNT
  {
    if ops == [] then Some(p)
    else
      assert OnList(ops[|ops| - 1]);
      match Run(server, ops[..|ops| - 1], p)
      case None => None
      case Some(q) => Apply(server, ops[|ops| - 1], q)
  }

  // ----- at most one primary entry and distinct keys, in all eight

  ghost predicate GoodProfile<D, K, V, F>(server: Server<D, K, V, F>, p: Profile<D, F>) {
    |p.lists| == COUNT && forall at | 0 <= at < COUNT :: Good(server.key(at), p.lists[at])
  }

  lemma {:induction false} CountedIsOnePrimary<D>(items: seq<Item<D>>)
    ensures PrimaryCount(items) == 0 ==> forall i | 0 <= i < |items| :: !items[i].primary
    ensures PrimaryCount(items) <= 1 ==> forall i, j | 0 <= i < j < |items| :: !(items[i].primary && items[j].primary)
  {
    if items != [] {
      CountedIsOnePrimary(items[..|items| - 1]);
    }
  }

  lemma AcceptedIsOnePrimary<D>(items: seq<Item<D>>)
    requires Accept(items).Some?
    ensures OnePrimary(Accept(items).value)
  {
    CountedIsOnePrimary(items);
  }

  lemma AddToIsGood<D, K>(key: D -> K, s: seq<Entry<D>>, items: Option<seq<Item<D>>>)
    requires Good(key, s) && AddTo(key, s, items).Some?
    ensures Good(key, AddTo(key, s, items).value)
  {
    AddIsGood(key, s, Accept(items.value).value);
  }

  /** Members are visited in any order, and in none is the update overlooked. */
  ghost predicate Noticed<D(!new), V, F>(op: Op<D, V, F>) {
    op.Update? ==> Orders(op.value, op.order) && !Overlooked(op.name, op.value)
  }

  lemma ApplyIsGood<D(!new), K, V, F>(server: Server<D, K, V, F>, op: Op<D, V, F>, p: Profile<D, F>)
    requires GoodProfile(server, p) && OnList(op) && Noticed(op) && Apply(server, op, p).Some?
    ensures GoodProfile(server, Apply(server, op, p).value)
  {
    match op
    case Add(at, items) => AddToIsGood(server.key(at), p.lists[at], items);
    case Replace(at, items) =>
      if items.Some? {
        AddToIsGood(server.key(at), [], items.value);
      }
    case Update(at, matches, name, value, order) =>
      NoticedIsCareful(server.write(at), name, value, order);
      UpdateIsGood(server.key(at), p.lists[at], matches.value, SetterOf(server.write(at), name, order), SetsPrimaryTrue(name, value));
    case Remove(at, matches) => WithoutIsGood(server.key(at), p.lists[at], matches);
    case Clear(at) =>
    case Single(change) =>
  }

  /** Every accepted sequence of operations, none of them overlooked, keeps every collection good. */
  lemma {:induction false} RunIsGood<D(!new), K, V, F>(server: Server<D, K, V, F>, ops: seq<Op<D, V, F>>, p: Profile<D, F>)
    requires GoodProfile(server, p) && Ops(ops) && Run(server, ops, p).Some?
    requires forall n | 0 <= n < |ops| :: Noticed(ops[n])
    ensures GoodProfile(server, Run(server, ops, p).value)
  {
    if ops != [] {
      var before, last := ops[..|ops| - 1], ops[|ops| - 1];
      forall n | 0 <= n < |before| ensures Noticed(before[n]) {
        assert before[n] == ops[n];
      }
      assert OnList(last) && Noticed(last);
      RunIsGood(server, before, p);
      ApplyIsGood(server, last, Run(server, before, p).value);
    }
  }

  /** A full replacement: each given list is built anew, the others are empty. */
  function ReplaceLists<D, K(==)>(key: nat -> (D -> K), given: seq<Option<seq<Item<D>>>>): (r: Option<seq<seq<Entry<D>>>>)
    ensures r.Some? ==> |r.value| == |given|
  {
    if given == [] then Some([])
    else
      var last := given[|given| - 1];
      match ReplaceLists(key, given[..|given| - 1])
      case None => None
      case Some(lists) =>
        if last.None? then Some(lists + [[]])
        else if Accept(last.value).None? then None
        else Some(lists + [Dedup(key(|given| - 1), Accept(last.value).value)])
  }

  lemma {:induction false} ReplacementIsGood<D, K>(key: nat -> (D -> K), given: seq<Option<seq<Item<D>>>>)
    requires ReplaceLists(key, given).Some?
    ensures forall at: nat | at < |given| :: Good(key(at), ReplaceLists(key, given).value[at])
  {
    if given != [] {
      var last := given[|given| - 1];
      ReplacementIsGood(key, given[..|given| - 1]);
      if last.Some? {
        AcceptedIsOnePrimary(last.value);
        DedupIsGood(key(|given| - 1), Accept(last.value).value);
      }
    }
  }

  // ----- the stored row

  datatype Row<D, F> = Row(version: nat, profile: Profile<D, F>)

  /** A PATCH request on a row; None is an error, and then nothing is written. */
  function Patched<D(==), K(==), V, F(==)>(
    server: Server<D, K, V, F>, row: Row<D, F>, ifMatch: Option<nat>, ops: seq<Op<D, V, F>>): (r: Option<Row<D, F>>)
    requires |row.profile.lists| == COUNT && Ops(ops)
    ensures r.Some? ==> |r.value.profile.lists| == COUNT
  {
    if (ifMatch.Some? && ifMatch.value != row.version) || ops == [] then None
    else
      match Run(server, ops, row.profile)
      case None => None
      case Some(p) =>
        var q := p.(fields := server.resolve(p.fields));
        if q == row.profile then Some(row)
        else if server.conflict(row.profile.fields, q.fields) then None
        else Some(Row(row.version + 1, q.(lists := q.lists[0 := Dedup(server.key(0), q.lists[0])])))
  }

  /** A successful PATCH keeps the collections good, and raises the version by one exactly if it changes the row. */
  lemma PatchedIsGood<D(!new), K, V, F>(
    server: Server<D, K, V, F>, row: Row<D, F>, ifMatch: Option<nat>, ops: seq<Op<D, V, F>>)
    requires GoodProfile(server, row.profile) && Ops(ops) && Patched(server, row, ifMatch, ops).Some?
    requires forall n | 0 <= n < |ops| :: Noticed(ops[n])
    ensures var after := Patched(server, row, ifMatch, ops).value;
            && GoodProfile(server, after.profile)
            && after.profile == Run(server, ops, row.profile).value.(fields := after.profile.fields)
            && after.version == row.version + if after.profile == row.profile then 0 else 1
  {
    RunIsGood(server, ops, row.profile);
    var lists := Run(server, ops, row.profile).value.lists;
    DistinctIsKept(server.key(0), lists[0]);
    assert lists[0 := lists[0]] == lists;
  }

  /** Requests on one user, one after the other; rejected ones leave the row as it is. */
  datatype Request<!D, !V, !F> =
    | Patch(ifMatch: Option<nat>, ops: seq<Op<D, V, F>>)
    | ReplaceUser(ifMatch: Option<nat>, given: seq<Option<seq<Item<D>>>>, fields: F)

  ghost predicate Wellformed<D(!new), V, F>(r: Request<D, V, F>) {
    match r
    case Patch(_, ops) => forall n | 0 <= n < |ops| :: OnList(ops[n]) && Noticed(ops[n])
    case ReplaceUser(_, given, _) => |given| == COUNT
  }

  /** A full replacement; None is an error: another version, a user name that is taken, or a list that is refused. */
  function Replaced<D(==), K(==), V, F(==)>(
    server: Server<D, K, V, F>, row: Row<D, F>, ifMatch: Option<nat>, given: seq<Option<seq<Item<D>>>>, fields: F): (after: Option<Row<D, F>>)
    requires |row.profile.lists| == COUNT && |given| == COUNT
    ensures after.Some? ==> |after.value.profile.lists| == COUNT
  {
    if (ifMatch.Some? && ifMatch.value != row.version) || server.conflict(row.profile.fields, fields) then None
    else
      match ReplaceLists(server.key, given)
      case None => None
      case Some(lists) => Some(Row(row.version + 1, Profile(lists, server.resolve(fields))))
  }

  function Handle<D(==, !new), K(==), V, F(==)>(server: Server<D, K, V, F>, row: Row<D, F>, r: Request<D, V, F>): (after: Row<D, F>)
    requires |row.profile.lists| == COUNT && Wellformed(r)
    ensures |after.profile.lists| == COUNT
  {
    match r
    case Patch(ifMatch, ops) => (match Patched(server, row, ifMatch, ops) case None => row case Some(after) => after)
    case ReplaceUser(ifMatch, given, fields) => (match Replaced(server, row, ifMatch, given, fields) case None => row case Some(after) => after)
  }

  function HandleAll<D(==, !new), K(==), V, F(==)>(
    server: Server<D, K, V, F>, row: Row<D, F>, requests: seq<Request<D, V, F>>): (after: Row<D, F>)
    requires |row.profile.lists| == COUNT && forall n | 0 <= n < |requests| :: Wellformed(requests[n])
    ensures |after.profile.lists| == COUNT
  {
    if requests == [] then row
    else Handle(server, HandleAll(server, row, requests[..|requests| - 1]), requests[|requests| - 1])
  }

  /**
   Over every run of requests the collections stay good, the version never falls, and while it
   stays the same so does the row.
   */
  lemma {:induction false} HistoryIsGood<D(!new), K, V, F>(
    server: Server<D, K, V, F>, row: Row<D, F>, requests: seq<Request<D, V, F>>)
    requires GoodProfile(server, row.profile) && forall n | 0 <= n < |requests| :: Wellformed(requests[n])
    ensures var after := HandleAll(server, row, requests);
            && GoodProfile(server, after.profile) && row.version <= after.version
            && (after.version == row.version ==> after == row)
  {
    if requests != [] {
      var before := requests[..|requests| - 1];
      HistoryIsGood(server, row, before);
      HandledIsGood(server, HandleAll(server, row, before), requests[|requests| - 1]);
    }
  }

  lemma HandledIsGood<D(!new), K, V, F>(server: Server<D, K, V, F>, row: Row<D, F>, r: Request<D, V, F>)
    requires GoodProfile(server, row.profile) && Wellformed(r)
    ensures var after := Handle(server, row, r);
            && GoodProfile(server, after.profile) && row.version <= after.version
            && (after.version == row.version ==> after == row)
  {
    match r
    case Patch(ifMatch, ops) =>
      if Patched(server, row, ifMatch, ops).Some? {
        PatchedIsGood(server, row, ifMatch, ops);
      }
    case ReplaceUser(_, given, _) =>
      if ReplaceLists(server.key, given).Some? {
        ReplacementIsGood(server.key, given);
      }
  }

  // ----- repeating adds

  ghost predicate AddsOnly<D, V, F>(ops: seq<Op<D, V, F>>) {
    forall n | 0 <= n < |ops| :: ops[n].Add? && OnList(ops[n])
  }

  function Accepted<D, V, F>(op: Op<D, V, F>): Option<seq<Entry<D>>> {
    if op.Add? && op.items.Some? then Accept(op.items.value) else None
  }

  /** What the operations add to one attribute, in order. */
  function AddedTo<D, V, F>(ops: seq<Op<D, V, F>>, at: nat): seq<seq<Entry<D>>> {
    if ops == [] then []
    else
      var last := ops[|ops| - 1];
      AddedTo(ops[..|ops| - 1], at)
      + if last.Add? && last.at == at && Accepted(last).Some? then [Accepted(last).value] else []
  }

  /** Adds are accepted or not whatever the user, and act on each attribute by itself. */
  lemma {:induction false} AddsByAttribute<D, K, V, F>(server: Server<D, K, V, F>, ops: seq<Op<D, V, F>>, p: Profile<D, F>)
    requires |p.lists| == COUNT && AddsOnly(ops)
    ensures Run(server, ops, p).Some? <==> forall n | 0 <= n < |ops| :: Accepted(ops[n]).Some?
    ensures match Run(server, ops, p)
            case None => true
            case Some(q) =>
              && q.fields == p.fields
              && forall at | 0 <= at < COUNT :: q.lists[at] == Adds(server.key(at), p.lists[at], AddedTo(ops, at))
  {
    if ops != [] {
      var before, last := ops[..|ops| - 1], ops[|ops| - 1];
      assert ops == before + [last] && last.Add? && OnList(last);
      assert AddsOnly(before);
      AddsByAttribute(server, before, p);
      var mid := Run(server, before, p);
      assert Run(server, ops, p) == if mid.None? then None else Apply(server, last, mid.value);
      if mid.Some? && Accepted(last).Some? {
        var q := Apply(server, last, mid.value).value;
        forall at | 0 <= at < COUNT ensures q.lists[at] == Adds(server.key(at), p.lists[at], AddedTo(ops, at)) {
          AddedStep(server.key(at), p.lists[at], before, last, at);
        }
      }
    }
  }

  lemma AddedStep<D, K, V, F>(key: D -> K, s: seq<Entry<D>>, before: seq<Op<D, V, F>>, last: Op<D, V, F>, at: nat)
    requires Accepted(last).Some?
    ensures var t := Adds(key, s, AddedTo(before, at));
            Adds(key, s, AddedTo(before + [last], at)) == if last.at == at then MultiValued.Add(key, t, Accepted(last).value) else t
  {
    var ops := before + [last];
    assert ops[..|ops| - 1] == before;
    if last.at == at {
      var lists, entries := AddedTo(before, at), Accepted(last).value;
      assert AddedTo(ops, at) == lists + [entries];
      assert (lists + [entries])[..|lists|] == lists;
    } else {
      assert AddedTo(ops, at) == AddedTo(before, at) + [] == AddedTo(before, at);
    }
  }

  lemma {:induction false} AddedIsAdmissible<D, V, F>(ops: seq<Op<D, V, F>>, at: nat)
    ensures Admissible(AddedTo(ops, at))
  {
    if ops != [] {
      var last := ops[|ops| - 1];
      AddedIsAdmissible(ops[..|ops| - 1], at);
      if last.Add? && Accepted(last).Some? {
        AcceptedIsOnePrimary(last.items.value);
      }
    }
  }

  lemma RepeatedRunChangesNothing<D, K(!new), V, F>(server: Server<D, K, V, F>, ops: seq<Op<D, V, F>>, p: Profile<D, F>, fields: F)
    requires |p.lists| == COUNT && AddsOnly(ops) && Run(server, ops, p).Some?
    ensures var q := Run(server, ops, p).value.(fields := fields); Run(server, ops, q) == Some(q)
  {
    var q := Run(server, ops, p).value.(fields := fields);
    AddsByAttribute(server, ops, p);
    AddsByAttribute(server, ops, q);
    var r := Run(server, ops, q).value;
    forall at | 0 <= at < COUNT ensures r.lists[at] == q.lists[at] {
      AddedIsAdmissible(ops, at);
      RepeatedAddsChangeNothing(server.key(at), p.lists[at], AddedTo(ops, at));
    }
    assert r.lists == q.lists;
  }

  /**
   Repeating an accepted PATCH that only adds to multi-valued attributes writes nothing and
   keeps the version, when filling in manager data a second time changes nothing.
   */
  lemma RepeatedPatchWritesNothing<D, K(!new), V, F>(
    server: Server<D, K, V, F>, row: Row<D, F>, ifMatch: Option<nat>, ops: seq<Op<D, V, F>>)
    requires GoodProfile(server, row.profile) && AddsOnly(ops) && Patched(server, row, ifMatch, ops).Some?
    requires server.resolve(server.resolve(row.profile.fields)) == server.resolve(row.profile.fields)
    ensures var after := Patched(server, row, ifMatch, ops).value;
            Patched(server, after, Some(after.version), ops) == Some(after)
  {
    var after := Patched(server, row, ifMatch, ops).value;
    AddsLeave(server, row, ifMatch, ops);
    RepeatedRunChangesNothing(server, ops, row.profile, after.profile.fields);
    SameRunWritesNothing(server, after, ops);
  }

  /** The row after a PATCH that only adds. */
  lemma AddsLeave<D, K(!new), V, F>(server: Server<D, K, V, F>, row: Row<D, F>, ifMatch: Option<nat>, ops: seq<Op<D, V, F>>)
    requires GoodProfile(server, row.profile) && AddsOnly(ops) && Patched(server, row, ifMatch, ops).Some?
    ensures var p := Run(server, ops, row.profile).value;
            Patched(server, row, ifMatch, ops).value.profile == p.(fields := server.resolve(row.profile.fields))
  {
    AddsByAttribute(server, ops, row.profile);
    AddsAreDistinct(server, ops, row.profile);
    DistinctIsWritten(server, row, ifMatch, ops);
  }

  /** Distinct e-mails are written as they are. */
  lemma DistinctIsWritten<D, K, V, F>(server: Server<D, K, V, F>, row: Row<D, F>, ifMatch: Option<nat>, ops: seq<Op<D, V, F>>)
    requires |row.profile.lists| == COUNT && Ops(ops) && Patched(server, row, ifMatch, ops).Some?
    requires Distinct(server.key(0), Run(server, ops, row.profile).value.lists[0])
    ensures var p := Run(server, ops, row.profile).value;
            Patched(server, row, ifMatch, ops).value.profile == p.(fields := server.resolve(p.fields))
  {
    var lists := Run(server, ops, row.profile).value.lists;
    DistinctIsKept(server.key(0), lists[0]);
    assert lists[0 := lists[0]] == lists;
  }

  lemma SameRunWritesNothing<D, K, V, F>(server: Server<D, K, V, F>, row: Row<D, F>, ops: seq<Op<D, V, F>>)
    requires |row.profile.lists| == COUNT && Ops(ops) && ops != [] && Run(server, ops, row.profile) == Some(row.profile)
    requires server.resolve(row.profile.fields) == row.profile.fields
    ensures Patched(server, row, Some(row.version), ops) == Some(row)
  {
  }

  lemma AddsAreDistinct<D, K(!new), V, F>(server: Server<D, K, V, F>, ops: seq<Op<D, V, F>>, p: Profile<D, F>)
    requires GoodProfile(server, p) && AddsOnly(ops) && Run(server, ops, p).Some?
    ensures Distinct(server.key(0), Run(server, ops, p).value.lists[0])
  {
    AddsByAttribute(server, ops, p);
    AddedIsAdmissible(ops, 0);
    if AddedTo(ops, 0) != [] {
      AddsSettle(server.key(0), p.lists[0], AddedTo(ops, 0));
    } else {
      assert Good(server.key(0), p.lists[0]);
    }
  }
}
