/**
 The table of asynchronous events and the periodic service that reaps stale PENDING events and
 prunes old terminal ones.
 */
module EventStore {
  import opened Text
  import opened AsyncEvents

  const BATCH: nat := 5000
  const REAP_LIMIT: nat := 1000

  // ----- ORDER BY created_at, txn_id

  predicate Older(rows: Rows, a: nat, b: nat)
    requires a in rows && b in rows
  {
    rows[a].created < rows[b].created || (rows[a].created == rows[b].created && a < b)
  }

  predicate IsOldest(rows: Rows, s: set<nat>, m: nat)
    requires s <= rows.Keys
  {
    m in s && forall u | u in s && u != m :: Older(rows, m, u)
  }

  lemma {:induction false} OldestExists(rows: Rows, s: set<nat>)
    requires s != {} && s <= rows.Keys
    ensures exists m :: IsOldest(rows, s, m)
  {
    var x :| x in s;
    var rest := s - {x};
    if rest == {} {
      assert s == {x};
      assert IsOldest(rows, s, x);
    } else {
      OldestExists(rows, rest);
      var m :| IsOldest(rows, rest, m);
      OlderOfTwo(rows, s, x, m);
    }
  }

  lemma OlderOfTwo(rows: Rows, s: set<nat>, x: nat, m: nat)
    requires s <= rows.Keys && x in s && IsOldest(rows, s - {x}, m)
    ensures IsOldest(rows, s, if Older(rows, m, x) then m else x)
  {
    var w := if Older(rows, m, x) then m else x;
    forall u | u in s && u != w ensures Older(rows, w, u) {
      if u != x && u != m {
        assert u in s - {x};
        assert Older(rows, m, u);
      }
    }
  }

  /** The keys, oldest first. */
  function Oldest(rows: Rows, s: set<nat>): seq<nat>
    requires s <= rows.Keys
    decreases |s|
  {
    if s == {} then []
    else
      OldestExists(rows, s);
      var m :| IsOldest(rows, s, m);
      [m] + Oldest(rows, s - {m})
  }

  /** r lists exactly the keys of s, each once, oldest first. */
  ghost predicate Lists(rows: Rows, s: set<nat>, r: seq<nat>) {
    && s <= rows.Keys
    && (forall t :: t in s <==> t in r)
    && (forall i, j | 0 <= i < j < |r| :: r[i] in rows && r[j] in rows && Older(rows, r[i], r[j]))
  }

  lemma {:induction false} OldestLists(rows: Rows, s: set<nat>)
    requires s <= rows.Keys
    ensures Lists(rows, s, Oldest(rows, s))
    decreases |s|
  {
    if s != {} {
      var r := Oldest(rows, s);
      OldestExists(rows, s);
      var m := r[0];
      var rest := r[1..];
      assert IsOldest(rows, s, m) && rest == Oldest(rows, s - {m});
      OldestLists(rows, s - {m});
      ConsLists(rows, s, m, rest);
      assert r == [m] + rest;
    }
  }

  lemma ConsLists(rows: Rows, s: set<nat>, m: nat, rest: seq<nat>)
    requires s <= rows.Keys && IsOldest(rows, s, m) && Lists(rows, s - {m}, rest)
    ensures Lists(rows, s, [m] + rest)
  {
    var r := [m] + rest;
    forall t ensures t in s <==> t in r {
      assert t in s - {m} <==> t in rest;
    }
    forall i, j | 0 <= i < j < |r| ensures r[i] in rows && r[j] in rows && Older(rows, r[i], r[j]) {
      assert r[j] == rest[j - 1] && rest[j - 1] in rest;
      if i > 0 {
        assert r[i] == rest[i - 1];
      }
    }
  }

  lemma HeadIsOldest(rows: Rows, s: set<nat>, r: seq<nat>)
    requires Lists(rows, s, r) && r != []
    ensures IsOldest(rows, s, r[0])
  {
    assert r[0] in r;
    forall u | u in s && u != r[0] ensures Older(rows, r[0], u) {
      var k :| 0 <= k < |r| && r[k] == u;
    }
  }

  lemma OldestIsUnique(rows: Rows, s: set<nat>, a: nat, b: nat)
    requires s <= rows.Keys && IsOldest(rows, s, a) && IsOldest(rows, s, b)
    ensures a == b
  {
  }

  /** There is only one such list. */
  lemma {:induction false} ListIsUnique(rows: Rows, s: set<nat>, r: seq<nat>, t: seq<nat>)
    requires Lists(rows, s, r) && Lists(rows, s, t)
    ensures r == t
    decreases |r|
  {
    ListLength(rows, s, r);
    ListLength(rows, s, t);
    if r != [] {
      HeadIsOldest(rows, s, r);
      HeadIsOldest(rows, s, t);
      OldestIsUnique(rows, s, r[0], t[0]);
      TailLists(rows, s, r);
      TailLists(rows, s, t);
      ListIsUnique(rows, s - {r[0]}, r[1..], t[1..]);
      assert r == [r[0]] + r[1..] && t == [t[0]] + t[1..];
    }
  }

  lemma TailLists(rows: Rows, s: set<nat>, r: seq<nat>)
    requires Lists(rows, s, r) && r != []
    ensures Lists(rows, s - {r[0]}, r[1..])
  {
    forall t ensures t in s - {r[0]} <==> t in r[1..] {
      if t in r[1..] {
        var k :| 0 <= k < |r| - 1 && r[1..][k] == t;
        assert Older(rows, r[0], r[k + 1]);
        assert t in r;
      }
      if t in s - {r[0]} {
        var k :| 0 <= k < |r| && r[k] == t;
        assert r[1..][k - 1] == t;
      }
    }
  }

  // ----- pruning

  function TerminalOf(rows: Rows, workspace: nat): set<nat> {
    set t | t in rows && rows[t].workspace == workspace && rows[t].status != Pending
  }

  /** The subquery, newest first: OFFSET maxCount LIMIT batch leaves these rows to delete. */
  function Excess(rows: Rows, workspace: nat, maxCount: nat, batch: nat): seq<nat> {
    var order := Oldest(rows, TerminalOf(rows, workspace));
    if |order| <= maxCount then []
    else
      var end := |order| - maxCount;
      order[if end > batch then end - batch else 0..end]
  }

  /** All but the newest maxCount terminal events of a workspace. */
  function Old(rows: Rows, workspace: nat, maxCount: nat): seq<nat> {
    var order := Oldest(rows, TerminalOf(rows, workspace));
    if |order| <= maxCount then [] else order[..|order| - maxCount]
  }

  function Elements(s: seq<nat>): set<nat> {
    set t | t in s
  }

  /** What is left of a list when a stretch of it is deleted from the table. */
  lemma CutLists(rows: Rows, s: set<nat>, r: seq<nat>, from: nat, to: nat)
    requires Lists(rows, s, r) && from <= to <= |r|
    ensures var doomed := Elements(r[from..to]);
            doomed <= s && Lists(rows - doomed, s - doomed, r[..from] + r[to..])
  {
    var doomed, left := Elements(r[from..to]), r[..from] + r[to..];
    forall t | t in doomed ensures t in s {
      var k :| 0 <= k < to - from && r[from..to][k] == t;
      assert r[from + k] == t;
    }
    assert forall i, j | 0 <= i < j < |r| :: r[i] != r[j];
    forall i | 0 <= i < |left| ensures left[i] in s && left[i] !in doomed {
      var i' := if i < from then i else i - from + to;
      assert left[i] == r[i'] && r[i'] in r;
      forall k | 0 <= k < to - from ensures r[from..to][k] != left[i] {
        assert r[from..to][k] == r[from + k] && from + k != i';
      }
    }
    forall k | from <= k < to ensures r[k] in doomed {
      assert r[from..to][k - from] == r[k];
    }
    forall t | t in s - doomed ensures t in left {
      var k :| 0 <= k < |r| && r[k] == t;
      assert left[if k < from then k else k - to + from] == t;
    }
    forall i, j | 0 <= i < j < |left|
      ensures left[i] in rows - doomed && left[j] in rows - doomed && Older(rows - doomed, left[i], left[j])
    {
      var i', j' := if i < from then i else i - from + to, if j < from then j else j - from + to;
      assert r[i'] == left[i] && r[j'] == left[j] && Older(rows, r[i'], r[j']);
    }
  }

  lemma TerminalWithout(rows: Rows, workspace: nat, doomed: set<nat>)
    ensures TerminalOf(rows - doomed, workspace) == TerminalOf(rows, workspace) - doomed
  {
  }

  lemma ListLength(rows: Rows, s: set<nat>, r: seq<nat>)
    requires Lists(rows, s, r)
    ensures |s| == |r| && forall i, j | 0 <= i < j < |r| :: r[i] != r[j]
    decreases |r|
  {
    if r == [] {
      assert s == {};
    } else {
      TailLists(rows, s, r);
      ListLength(rows, s - {r[0]}, r[1..]);
      assert r[0] in s;
    }
  }

  /** A batch takes the end of what is old; after it, what was old before that is still old. */
  lemma BatchShrinksOld(rows: Rows, workspace: nat, maxCount: nat)
    ensures var doomed := Elements(Excess(rows, workspace, maxCount, BATCH));
            var aged, left := Old(rows, workspace, maxCount), Old(rows - doomed, workspace, maxCount);
            && |doomed| == |Excess(rows, workspace, maxCount, BATCH)| == (if |aged| > BATCH then BATCH else |aged|)
            && left == aged[..|aged| - |doomed|]
            && Elements(aged) == Elements(left) + doomed
  {
    var order := Oldest(rows, TerminalOf(rows, workspace));
    if |order| > maxCount {
      FullBatch(rows, workspace, maxCount, order);
    } else {
      NothingOld(rows, workspace, maxCount);
    }
  }

  lemma FullBatch(rows: Rows, workspace: nat, maxCount: nat, order: seq<nat>)
    requires order == Oldest(rows, TerminalOf(rows, workspace)) && |order| > maxCount
    ensures var doomed := Elements(Excess(rows, workspace, maxCount, BATCH));
            var aged, left := Old(rows, workspace, maxCount), Old(rows - doomed, workspace, maxCount);
            && |doomed| == |Excess(rows, workspace, maxCount, BATCH)| == (if |aged| > BATCH then BATCH else |aged|)
            && left == aged[..|aged| - |doomed|]
            && Elements(aged) == Elements(left) + doomed
  {
    var end := |order| - maxCount;
    var from := if end > BATCH then end - BATCH else 0;
    assert Excess(rows, workspace, maxCount, BATCH) == order[from..end] && Old(rows, workspace, maxCount) == order[..end];
    BatchCuts(rows, workspace, maxCount, order, from);
    BatchSize(rows, TerminalOf(rows, workspace), from, end);
    FrontOfFront(order, from, end);
  }

  lemma NothingOld(rows: Rows, workspace: nat, maxCount: nat)
    requires |Oldest(rows, TerminalOf(rows, workspace))| <= maxCount
    ensures Excess(rows, workspace, maxCount, BATCH) == [] && Old(rows, workspace, maxCount) == []
    ensures Elements([]) == {} && rows - {} == rows
  {
  }

  lemma FrontOfFront(order: seq<nat>, from: nat, end: nat)
    requires from <= end <= |order|
    ensures order[..end][..from] == order[..from]
  {
  }

  /** Deleting a stretch of the listed rows leaves the list without it. */
  lemma CutOldest(rows: Rows, s: set<nat>, order: seq<nat>, from: nat, end: nat)
    requires s <= rows.Keys && order == Oldest(rows, s) && from <= end <= |order|
    ensures var doomed := Elements(order[from..end]);
            doomed <= s && Oldest(rows - doomed, s - doomed) == order[..from] + order[end..]
  {
    var doomed := Elements(order[from..end]);
    OldestLists(rows, s);
    CutLists(rows, s, order, from, end);
    OldestLists(rows - doomed, s - doomed);
    ListIsUnique(rows - doomed, s - doomed, order[..from] + order[end..], Oldest(rows - doomed, s - doomed));
  }

  lemma BatchCuts(rows: Rows, workspace: nat, maxCount: nat, order: seq<nat>, from: nat)
    requires order == Oldest(rows, TerminalOf(rows, workspace)) && from + maxCount <= |order|
    ensures Old(rows - Elements(order[from..|order| - maxCount]), workspace, maxCount) == order[..from]
  {
    var end := |order| - maxCount;
    var doomed := Elements(order[from..end]);
    CutOldest(rows, TerminalOf(rows, workspace), order, from, end);
    TerminalWithout(rows, workspace, doomed);
    OldOf(rows - doomed, workspace, maxCount, order[..from] + order[end..], from);
    FrontOfJoin(order[..from], order[end..]);
  }

  lemma FrontOfJoin(a: seq<nat>, b: seq<nat>)
    ensures (a + b)[..|a|] == a
  {
  }

  lemma BatchSize(rows: Rows, s: set<nat>, from: nat, end: nat)
    requires s <= rows.Keys && from <= end <= |Oldest(rows, s)|
    ensures var order := Oldest(rows, s);
            && |Elements(order[from..end])| == end - from
            && Elements(order[..end]) == Elements(order[..from]) + Elements(order[from..end])
  {
    var order := Oldest(rows, s);
    OldestLists(rows, s);
    ListLength(rows, s, order);
    DistinctElements(order[from..end]);
    assert order[..end] == order[..from] + order[from..end];
    JoinElements(order[..from], order[from..end]);
  }

  lemma OldOf(rows: Rows, workspace: nat, maxCount: nat, order: seq<nat>, from: nat)
    requires order == Oldest(rows, TerminalOf(rows, workspace)) && |order| == from + maxCount
    ensures Old(rows, workspace, maxCount) == order[..from]
  {
  }

  lemma JoinElements(a: seq<nat>, b: seq<nat>)
    ensures Elements(a + b) == Elements(a) + Elements(b)
  {
  }

  lemma {:induction false} DistinctElements(s: seq<nat>)
    requires forall i, j | 0 <= i < j < |s| :: s[i] != s[j]
    ensures |Elements(s)| == |s|
  {
    if s == [] {
      assert Elements(s) == {};
    } else {
      DistinctElements(s[1..]);
      assert s == [s[0]] + s[1..];
      assert Elements(s) == {s[0]} + Elements(s[1..]);
    }
  }

  // ----- reaping

  function Stale(rows: Rows, cutoff: int): set<nat> {
    set t | t in rows && rows[t].status == Pending && rows[t].created < cutoff
  }

  /** At most this many stale events are found: those listed come before those left out, by age and then by transaction. */
  ghost predicate FindsStale(rows: Rows, cutoff: int, most: nat, found: seq<nat>) {
    && |found| <= most
    && (forall n | 0 <= n < |found| :: found[n] in rows && rows[found[n]].status == Pending && rows[found[n]].created < cutoff)
    && (forall m, n | 0 <= m < n < |found| :: InOrder(rows[found[m]].created, found[m], rows[found[n]].created, found[n]))
    && (forall t | t in rows && rows[t].status == Pending && rows[t].created < cutoff && t !in found ::
          |found| == most && forall n | 0 <= n < most :: InOrder(rows[found[n]].created, found[n], rows[t].created, t))
  }

  /** ORDER BY created_at, txn_id. */
  predicate InOrder(created: int, txn: nat, laterCreated: int, laterTxn: nat) {
    created < laterCreated || (created == laterCreated && txn < laterTxn)
  }

  /** The first n of a list: what is left out is younger than all of them. */
  lemma FirstOfList(rows: Rows, s: set<nat>, order: seq<nat>, n: nat)
    requires Lists(rows, s, order) && n <= |order|
    ensures forall k | 0 <= k < n :: order[k] in s
    ensures forall t, k | t in s && t !in order[..n] && 0 <= k < n :: Older(rows, order[k], t)
    ensures n == |order| ==> forall t | t in s :: t in order[..n]
  {
    assert forall k | 0 <= k < n :: order[k] in order;
    forall t, k | t in s && t !in order[..n] && 0 <= k < n
      ensures Older(rows, order[k], t)
    {
      var j :| 0 <= j < |order| && order[j] == t;
      InPrefix(order, n, j);
    }
    if n == |order| {
      assert order[..n] == order;
    }
  }

  lemma StaleIsFound(rows: Rows, cutoff: int, most: nat)
    ensures var order := Oldest(rows, Stale(rows, cutoff));
            FindsStale(rows, cutoff, most, if |order| > most then order[..most] else order)
  {
    var order := Oldest(rows, Stale(rows, cutoff));
    var n := if |order| > most then most else |order|;
    OldestLists(rows, Stale(rows, cutoff));
    FirstOfList(rows, Stale(rows, cutoff), order, n);
    ListedInOrder(rows, Stale(rows, cutoff), order);
    assert n == |order| ==> order[..n] == order;
    FirstIsFound(rows, cutoff, most, order, n);
  }

  lemma ListedInOrder(rows: Rows, s: set<nat>, order: seq<nat>)
    requires Lists(rows, s, order)
    ensures forall i, j | 0 <= i < j < |order| ::
              order[i] in rows && order[j] in rows && InOrder(rows[order[i]].created, order[i], rows[order[j]].created, order[j])
  {
    forall i, j | 0 <= i < j < |order|
      ensures order[i] in rows && order[j] in rows && InOrder(rows[order[i]].created, order[i], rows[order[j]].created, order[j])
    {
      assert Older(rows, order[i], order[j]);
    }
  }

  lemma FirstIsFound(rows: Rows, cutoff: int, most: nat, order: seq<nat>, n: nat)
    requires n <= |order| && n <= most && (n < most ==> n == |order|)
    requires forall k | 0 <= k < n :: order[k] in Stale(rows, cutoff)
    requires forall t, k | t in Stale(rows, cutoff) && t !in order[..n] && 0 <= k < n :: Older(rows, order[k], t)
    requires n == |order| ==> forall t | t in Stale(rows, cutoff) :: t in order[..n]
    requires forall i, j | 0 <= i < j < |order| ::
               order[i] in rows && order[j] in rows && InOrder(rows[order[i]].created, order[i], rows[order[j]].created, order[j])
    ensures FindsStale(rows, cutoff, most, order[..n])
  {
    forall t | t in rows && rows[t].status == Pending && rows[t].created < cutoff && t !in order[..n]
      ensures n == most && forall k | 0 <= k < most :: InOrder(rows[order[k]].created, order[k], rows[t].created, t)
    {
      assert t in Stale(rows, cutoff);
    }
  }

  lemma InPrefix(order: seq<nat>, n: nat, k: nat)
    requires k < |order| && n <= |order|
    ensures k < n ==> order[k] in order[..n]
  {
    if k < n {
      assert order[..n][k] == order[k];
    }
  }

  /** Exactly the listed events become FAILED, each with its own token; the others are as they were. */
  ghost predicate Fails(rows: Rows, found: seq<nat>, token: nat -> string, after: Rows) {
    && after.Keys == rows.Keys
    && forall t | t in rows :: after[t] ==
         if t in found then Event(rows[t].workspace, Failed, Some(token(t)), rows[t].created) else rows[t]
  }

  lemma FoundAreFailed(rows: Rows, cutoff: int, most: nat, found: seq<nat>, token: nat -> string)
    requires FindsStale(rows, cutoff, most, found)
    ensures Fails(rows, found, token, FailAll(rows, found, token))
  {
    FailAllFails(rows, found, token);
  }

  /** Each of the events, if still PENDING, becomes FAILED with its own token. */
  function FailAll(rows: Rows, txns: seq<nat>, token: nat -> string): Rows {
    if txns == [] then rows
    else
      var last := txns[|txns| - 1];
      Transition(FailAll(rows, txns[..|txns| - 1], token), last, Failed, token(last))
  }

  lemma {:induction false} FailAllFails(rows: Rows, txns: seq<nat>, token: nat -> string)
    ensures var r := FailAll(rows, txns, token);
            && r.Keys == rows.Keys
            && forall t | t in rows :: r[t] ==
                 if t in txns && rows[t].status == Pending then rows[t].(status := Failed, payload := Some(token(t))) else rows[t]
  {
    if txns != [] {
      var before := txns[..|txns| - 1];
      FailAllFails(rows, before, token);
      assert txns == before + [txns[|txns| - 1]];
    }
  }

  class EventTable {
    var rows: Rows

    constructor ()
      ensures rows == map[]
    {
      rows := map[];
    }

    /** False when the transaction already has a row. */
    method Create(txn: nat, workspace: nat, now: int) returns (ok: bool)
      modifies this
      ensures ok <==> txn !in old(rows)
      ensures rows == if ok then old(rows)[txn := Event(workspace, Pending, None, now)] else old(rows)
    {
      ok := txn !in rows;
      if ok {
        rows := rows[txn := Event(workspace, Pending, None, now)];
      }
    }

    method UpdateStatusAndPayload(txn: nat, status: Status, payload: string)
      modifies this
      ensures rows == Transition(old(rows), txn, status, payload)
      ensures rows == if txn in old(rows) && old(rows)[txn].status == Pending
                      then old(rows)[txn := Event(old(rows)[txn].workspace, status, Some(payload), old(rows)[txn].created)] else old(rows)
    {
      if txn in rows && rows[txn].status == Pending {
        rows := rows[txn := rows[txn].(status := status, payload := Some(payload))];
      }
    }

    method TransitionPendingToFailed(txn: nat, payload: string) returns (updated: bool)
      modifies this
      ensures rows == Transition(old(rows), txn, Failed, payload)
      ensures updated <==> txn in old(rows) && old(rows)[txn].status == Pending
      ensures rows == if updated then old(rows)[txn := Event(old(rows)[txn].workspace, Failed, Some(payload), old(rows)[txn].created)] else old(rows)
    {
      updated := txn in rows && rows[txn].status == Pending;
      if updated {
        rows := rows[txn := rows[txn].(status := Failed, payload := Some(payload))];
      }
    }

    method FindStalePendingEvents(cutoff: int, limit: int) returns (found: seq<nat>)
      ensures var order := Oldest(rows, Stale(rows, cutoff));
              var most: nat := if limit <= 0 then REAP_LIMIT else limit;
              found == if |order| > most then order[..most] else order
      ensures FindsStale(rows, cutoff, if limit <= 0 then 1000 else limit, found)
    {
      var most: nat := if limit <= 0 then REAP_LIMIT else limit;
      StaleIsFound(rows, cutoff, most);
      found := Oldest(rows, Stale(rows, cutoff));
      if |found| > most {
        found := found[..most];
      }
    }

    /** One DELETE: the batch nearest to the newest that stay. */
    method DeleteBatch(workspace: nat, maxCount: nat) returns (affected: nat)
      modifies this
      ensures var doomed := Elements(Excess(old(rows), workspace, maxCount, BATCH));
              rows == old(rows) - doomed && affected == |doomed|
    {
      var doomed := Elements(Excess(rows, workspace, maxCount, BATCH));
      affected := |doomed|;
      rows := rows - doomed;
    }

    /**
     Batch after batch, until one is not full: all but the newest maxCount terminal events of
     the workspace are gone, and nothing else.
     */
    method DeleteOldEventsForWorkspace(workspace: nat, maxCount: nat) returns (totalDeleted: nat)
      modifies this
      ensures rows == old(rows) - Elements(Old(old(rows), workspace, maxCount))
      ensures totalDeleted == |Elements(Old(old(rows), workspace, maxCount))|
    {
      ghost var gone: set<nat> := {};
      totalDeleted := 0;
      var more := true;
      assert rows - gone == rows;
      while more
        invariant Pruning(old(rows), rows, workspace, maxCount, gone) && totalDeleted == |gone|
        invariant !more ==> Old(rows, workspace, maxCount) == []
        decreases more, |Old(rows, workspace, maxCount)|
      {
        ghost var doomed := Elements(Excess(rows, workspace, maxCount, BATCH));
        PruningStep(old(rows), rows, workspace, maxCount, gone);
        BatchShrinksOld(rows, workspace, maxCount);
        var affected := DeleteBatch(workspace, maxCount);
        gone := gone + doomed;
        totalDeleted := totalDeleted + affected;
        if affected < BATCH {
          more := false;
        }
      }
    }

    /** Stale events are failed one by one; some may have become terminal in the meantime. */
    method ReapStalePending(cutoff: int, token: nat -> string) returns (reaped: nat)
      modifies this
      ensures var order := Oldest(old(rows), Stale(old(rows), cutoff));
              var found := if |order| > REAP_LIMIT then order[..REAP_LIMIT] else order;
              rows == FailAll(old(rows), found, token) && reaped == |found|
      ensures exists found :: FindsStale(old(rows), cutoff, 1000, found) && Fails(old(rows), found, token, rows) && reaped == |found|
    {
      var found := FindStalePendingEvents(cutoff, REAP_LIMIT);
      reaped := 0;
      assert found[..0] == [];
      for n := 0 to |found|
        invariant rows == FailAll(old(rows), found[..n], token) && reaped == n
      {
        ReapNext(old(rows), cutoff, found, n, token);
        var updated := TransitionPendingToFailed(found[n], token(found[n]));
        if updated {
          reaped := reaped + 1;
        }
      }
      assert found[..|found|] == found;
      FoundAreFailed(old(rows), cutoff, REAP_LIMIT, found, token);
    }

    /** Workspace after workspace. */
    method CleanupTerminal(workspaces: seq<nat>, maxCount: nat) returns (totalDeleted: nat)
      modifies this
      ensures rows == PruneAll(old(rows), workspaces, maxCount)
      ensures totalDeleted == |old(rows)| - |rows|
    {
      totalDeleted := 0;
      assert workspaces[..0] == [];
      for n := 0 to |workspaces|
        invariant rows == PruneAll(old(rows), workspaces[..n], maxCount)
        invariant totalDeleted == |old(rows)| - |rows|
      {
        var upTo := workspaces[..n + 1];
        assert upTo[..|upTo| - 1] == workspaces[..n] && upTo[n] == workspaces[n];
        OldIsListed(rows, workspaces[n], maxCount);
        MinusSize(rows, Elements(Old(rows, workspaces[n], maxCount)));
        var deleted := DeleteOldEventsForWorkspace(workspaces[n], maxCount);
        totalDeleted := totalDeleted + deleted;
      }
      assert workspaces[..|workspaces|] == workspaces;
    }
  }

  /** The next stale event is still PENDING when its turn comes. */
  lemma ReapNext(rows: Rows, cutoff: int, found: seq<nat>, n: nat, token: nat -> string)
    requires n < |found| && found <= Oldest(rows, Stale(rows, cutoff))
    ensures found[n] in FailAll(rows, found[..n], token) && FailAll(rows, found[..n], token)[found[n]].status == Pending
    ensures FailAll(rows, found[..n + 1], token) == Transition(FailAll(rows, found[..n], token), found[n], Failed, token(found[n]))
  {
    var s := Stale(rows, cutoff);
    var order := Oldest(rows, s);
    OldestLists(rows, s);
    ListLength(rows, s, order);
    assert order[n] in order && found[n] == order[n];
    forall k | 0 <= k < n ensures found[..n][k] != found[n] {
      assert order[k] != order[n];
    }
    FailAllFails(rows, found[..n], token);
    var upTo := found[..n + 1];
    assert upTo[..|upTo| - 1] == found[..n] && upTo[n] == found[n];
  }

  /** Part of what is old is gone, the rest is still listed as old, and nothing else has changed. */
  ghost predicate Pruning(start: Rows, rows: Rows, workspace: nat, maxCount: nat, gone: set<nat>) {
    && rows == start - gone
    && gone !! Elements(Old(rows, workspace, maxCount))
    && gone + Elements(Old(rows, workspace, maxCount)) == Elements(Old(start, workspace, maxCount))
  }

  lemma PruningStep(start: Rows, rows: Rows, workspace: nat, maxCount: nat, gone: set<nat>)
    requires Pruning(start, rows, workspace, maxCount, gone)
    ensures var doomed := Elements(Excess(rows, workspace, maxCount, BATCH));
            Pruning(start, rows - doomed, workspace, maxCount, gone + doomed) && |gone + doomed| == |gone| + |doomed|
  {
    var doomed := Elements(Excess(rows, workspace, maxCount, BATCH));
    BatchShrinksOld(rows, workspace, maxCount);
    OldIsDistinct(rows, workspace, maxCount);
    SplitIsDisjoint(Old(rows, workspace, maxCount), |Old(rows - doomed, workspace, maxCount)|, doomed);
    MinusTwice(start, gone, doomed);
    MoveAcross(gone, Elements(Old(rows, workspace, maxCount)), Elements(Old(rows - doomed, workspace, maxCount)), doomed);
  }

  lemma MinusTwice(rows: Rows, a: set<nat>, b: set<nat>)
    ensures rows - a - b == rows - (a + b)
  {
  }

  lemma MoveAcross(gone: set<nat>, before: set<nat>, after: set<nat>, doomed: set<nat>)
    requires gone !! before && before == after + doomed && after !! doomed
    ensures (gone + doomed) !! after && gone + doomed + after == gone + before && |gone + doomed| == |gone| + |doomed|
  {
    assert gone !! doomed;
  }

  function PruneAll(rows: Rows, workspaces: seq<nat>, maxCount: nat): Rows {
    if workspaces == [] then rows
    else
      var before := PruneAll(rows, workspaces[..|workspaces| - 1], maxCount);
      before - Elements(Old(before, workspaces[|workspaces| - 1], maxCount))
  }

  lemma OldIsListed(rows: Rows, workspace: nat, maxCount: nat)
    ensures Elements(Old(rows, workspace, maxCount)) <= TerminalOf(rows, workspace) <= rows.Keys
  {
    var order := Oldest(rows, TerminalOf(rows, workspace));
    OldestLists(rows, TerminalOf(rows, workspace));
    forall t | t in Old(rows, workspace, maxCount) ensures t in TerminalOf(rows, workspace) {
      assert t in order;
    }
  }

  lemma MinusSize(rows: Rows, doomed: set<nat>)
    requires doomed <= rows.Keys
    ensures |rows - doomed| == |rows| - |doomed|
  {
    assert (rows - doomed).Keys == rows.Keys - doomed;
    assert |rows.Keys| == |rows| && |(rows - doomed).Keys| == |rows - doomed|;
  }

  lemma OldIsDistinct(rows: Rows, workspace: nat, maxCount: nat)
    ensures var aged := Old(rows, workspace, maxCount); forall i, j | 0 <= i < j < |aged| :: aged[i] != aged[j]
  {
    OldestLists(rows, TerminalOf(rows, workspace));
    ListLength(rows, TerminalOf(rows, workspace), Oldest(rows, TerminalOf(rows, workspace)));
  }

  lemma SplitIsDisjoint(all: seq<nat>, k: nat, rest: set<nat>)
    requires k <= |all| && (forall i, j | 0 <= i < j < |all| :: all[i] != all[j])
    requires |rest| == |all| - k && Elements(all) == Elements(all[..k]) + rest
    ensures Elements(all[..k]) !! rest
  {
    var a := Elements(all[..k]);
    DistinctElements(all);
    DistinctElements(all[..k]);
    assert |a + rest| == |a| + |rest| - |a * rest|;
    forall t | t in a ensures t !in rest {
      assert a * rest == {};
      assert t !in a * rest;
    }
  }

  /** The events of a workspace that are no longer PENDING. */
  function Settled(rows: Rows, workspace: nat): set<nat> {
    set t | t in rows && rows[t].workspace == workspace && (rows[t].status == Completed || rows[t].status == Failed)
  }

  /** After pruning, a workspace keeps exactly its newest maxCount terminal events, and every other row. */
  lemma PruningKeepsTheNewest(rows: Rows, workspace: nat, maxCount: nat)
    ensures var left := rows - Elements(Old(rows, workspace, maxCount));
            && |Settled(left, workspace)| == (if |Settled(rows, workspace)| < maxCount then |Settled(rows, workspace)| else maxCount)
            && (forall t | t in rows && (rows[t].workspace != workspace || rows[t].status == Pending) :: t in left)
            && (forall t, u | t in Settled(left, workspace) && u in rows && u !in left ::
                  InOrder(rows[u].created, u, rows[t].created, t))
  {
    var s := TerminalOf(rows, workspace);
    var aged := Old(rows, workspace, maxCount);
    var left := rows - Elements(aged);
    OldIsListed(rows, workspace, maxCount);
    TerminalWithout(rows, workspace, Elements(aged));
    OldestLists(rows, s);
    ListLength(rows, s, Oldest(rows, s));
    OldIsDistinct(rows, workspace, maxCount);
    DistinctElements(aged);
    assert |s - Elements(aged)| == |s| - |Elements(aged)|;
    SettledIsTerminal(rows, workspace);
    SettledIsTerminal(left, workspace);
    forall t, u | t in s - Elements(aged) && u in Elements(aged) ensures InOrder(rows[u].created, u, rows[t].created, t) {
      OldIsOlder(rows, workspace, maxCount, t, u);
    }
  }

  lemma SettledIsTerminal(rows: Rows, workspace: nat)
    ensures Settled(rows, workspace) == TerminalOf(rows, workspace)
  {
  }

  lemma OldIsOlder(rows: Rows, workspace: nat, maxCount: nat, t: nat, u: nat)
    requires t in TerminalOf(rows, workspace) && t !in Old(rows, workspace, maxCount) && u in Old(rows, workspace, maxCount)
    ensures u in rows && Older(rows, u, t)
  {
    var order, aged := Oldest(rows, TerminalOf(rows, workspace)), Old(rows, workspace, maxCount);
    OldestLists(rows, TerminalOf(rows, workspace));
    assert aged == order[..|aged|];
    var i :| 0 <= i < |order| && order[i] == t;
    var j :| 0 <= j < |aged| && aged[j] == u;
    InPrefix(order, |aged|, i);
    assert order[j] == u;
  }

  /** The events that are PENDING since before the cutoff. */
  function Overdue(rows: Rows, cutoff: int): set<nat> {
    set t | t in rows && rows[t].status == Pending && rows[t].created < cutoff
  }

  /**
   With at most the limit overdue, a sweep makes each of them FAILED with its own token; every other row,
   in particular every one created at the cutoff or after it, is as it was.
   */
  lemma ReapingFailsTheOverdue(rows: Rows, cutoff: int, token: nat -> string, found: seq<nat>, after: Rows)
    requires |Overdue(rows, cutoff)| <= 1000
    requires FindsStale(rows, cutoff, 1000, found) && Fails(rows, found, token, after)
    ensures after.Keys == rows.Keys
    ensures forall t | t in rows :: after[t] ==
              if rows[t].status == Pending && rows[t].created < cutoff then Event(rows[t].workspace, Failed, Some(token(t)), rows[t].created)
              else rows[t]
  {
    forall t | t in rows && rows[t].status == Pending && rows[t].created < cutoff
      ensures t in found
    {
      if t !in found {
        FoundAreFew(rows, cutoff, found);
        assert Elements(found) + {t} <= Overdue(rows, cutoff);
        SubsetIsSmaller(Elements(found) + {t}, Overdue(rows, cutoff));
      }
    }
  }

  lemma FoundAreFew(rows: Rows, cutoff: int, found: seq<nat>)
    requires FindsStale(rows, cutoff, 1000, found)
    ensures |Elements(found)| == |found| && Elements(found) <= Overdue(rows, cutoff)
  {
    forall m, n | 0 <= m < n < |found|
      ensures found[m] != found[n]
    {
      assert InOrder(rows[found[m]].created, found[m], rows[found[n]].created, found[n]);
    }
    DistinctElements(found);
  }

  lemma SubsetIsSmaller(a: set<nat>, b: set<nat>)
    requires a <= b
    ensures |a| <= |b|
  {
    assert b == a + (b - a);
  }

  /** After reaping with at most the limit overdue, no event from before the cutoff is PENDING. */
  lemma ReapingLeavesNoStale(rows: Rows, cutoff: int, token: nat -> string, found: seq<nat>, after: Rows)
    requires |Overdue(rows, cutoff)| <= 1000
    requires FindsStale(rows, cutoff, 1000, found) && Fails(rows, found, token, after)
    ensures forall t | t in after && after[t].status == Pending :: after[t].created >= cutoff
  {
    ReapingFailsTheOverdue(rows, cutoff, token, found, after);
  }
}
