/**
 The order in which the operations of a bulk request run: a Kahn-style loop over the
 predecessor relation that, when every remaining operation waits, releases the earliest
 remaining POST (sections 3.7 and 3.7.1 of RFC 7644).
 */
module BulkSchedule {

  // ----- the predecessor relation and what a schedule of it is

  /** preds[v] are the operations that v waits for. */
  type Waits = seq<set<nat>>

  ghost predicate WellFormed(preds: Waits) {
    forall v | 0 <= v < |preds| :: v !in preds[v] && forall u | u in preds[v] :: u < |preds|
  }

  function Elements(s: seq<nat>): set<nat> {
    set x | x in s
  }

  ghost predicate Distinct(s: seq<nat>) {
    forall i, j | 0 <= i < j < |s| :: s[i] != s[j]
  }

  ghost predicate Permutation(order: seq<nat>, n: nat) {
    && |order| == n
    && Distinct(order)
    && forall x | x in order :: x < n
  }

  ghost predicate Ready(preds: Waits, scheduled: set<nat>, v: nat) {
    v < |preds| && v !in scheduled && preds[v] <= scheduled
  }

  ghost predicate Waiting(preds: Waits, scheduled: set<nat>) {
    forall v | 0 <= v < |preds| :: !Ready(preds, scheduled, v)
  }

  /** v is what the loop schedules next. */
  ghost predicate Picks(preds: Waits, posts: seq<bool>, scheduled: set<nat>, v: nat)
    requires |posts| == |preds|
  {
    && v < |preds| && v !in scheduled
    && (if !Waiting(preds, scheduled) then
          Ready(preds, scheduled, v) && forall w | 0 <= w < v :: !Ready(preds, scheduled, w)
        else if exists w :: 0 <= w < |posts| && w !in scheduled && posts[w] then
          posts[v] && forall w | 0 <= w < v :: w in scheduled || !posts[w]
        else
          forall w | 0 <= w < v :: w in scheduled)
  }

  ghost predicate Greedy(preds: Waits, posts: seq<bool>, order: seq<nat>)
    requires |posts| == |preds|
  {
    && |order| <= |preds|
    && forall k | 0 <= k < |order| :: Picks(preds, posts, Elements(order[..k]), order[k])
  }

  /** The operation at place k runs after all it waits for. */
  ghost predicate Follows(preds: Waits, order: seq<nat>, k: nat)
    requires k < |order|
  {
    order[k] < |preds| && preds[order[k]] <= Elements(order[..k])
  }

  ghost predicate Topological(preds: Waits, order: seq<nat>) {
    Permutation(order, |preds|) && forall k | 0 <= k < |order| :: Follows(preds, order, k)
  }

  ghost predicate HasSource(preds: Waits, some: set<nat>) {
    exists v :: v in some && v < |preds| && preds[v] !! some
  }

  /** No cycle: every non-empty set of operations has one that waits for none of the set. */
  ghost predicate Acyclic(preds: Waits) {
    forall some: set<nat> ::
      (some != {} && forall v | v in some :: v < |preds|) ==> HasSource(preds, some)
  }

  ghost predicate LexAtMost(a: seq<nat>, b: seq<nat>)
    requires |a| == |b|
  {
    a == b || exists k: nat :: FirstDifference(a, b, k) && a[k] < b[k]
  }

  ghost predicate FirstDifference(a: seq<nat>, b: seq<nat>, k: nat) {
    k < |a| && k < |b| && a[..k] == b[..k]
  }

  // ----- sizes

  function Identity(n: nat): (s: seq<nat>)
    ensures |s| == n && forall i | 0 <= i < n :: s[i] == i
  {
    seq(n, i => i)
  }

  lemma {:induction false} DistinctSize(s: seq<nat>)
    requires Distinct(s)
    ensures |Elements(s)| == |s|
  {
    if s != [] {
      var front := s[..|s| - 1];
      DistinctSize(front);
      assert Elements(s) == Elements(front) + {s[|s| - 1]};
    }
  }

  lemma SubsetSize<T>(a: set<T>, b: set<T>)
    requires a <= b
    ensures |a| <= |b|
    ensures |a| == |b| ==> a == b
  {
    assert b == a + (b - a);
    assert |b| == |a| + |b - a|;
  }

  /** A distinct list of numbers below n is shorter than n exactly while one is missing. */
  lemma Remaining(order: seq<nat>, n: nat)
    requires Distinct(order) && forall x | x in order :: x < n
    ensures |order| <= n
    ensures |order| < n <==> exists v: nat :: v < n && v !in order
  {
    var all := Identity(n);
    DistinctSize(order);
    DistinctSize(all);
    forall x | x in order
      ensures x in all
    {
      assert all[x] == x;
    }
    SubsetSize(Elements(order), Elements(all));
    if forall v | v in Elements(all) :: v in Elements(order) {
      SubsetSize(Elements(all), Elements(order));
      forall v: nat | v < n
        ensures v in order
      {
        assert all[v] == v;
        assert v in Elements(all);
      }
    } else {
      var v :| v in Elements(all) && v !in Elements(order);
      assert v < n && v !in order;
    }
  }

  lemma {:induction false} GreedyIsDistinct(preds: Waits, posts: seq<bool>, order: seq<nat>)
    requires |posts| == |preds| && Greedy(preds, posts, order)
    ensures Distinct(order)
    ensures forall x | x in order :: x < |preds|
  {
    forall i, j | 0 <= i < j < |order|
      ensures order[i] != order[j]
    {
      assert Picks(preds, posts, Elements(order[..j]), order[j]);
      assert order[..j][i] == order[i];
    }
  }

  // ----- theorems about every greedy order

  lemma GreedyIsPermutation(preds: Waits, posts: seq<bool>, order: seq<nat>)
    requires |posts| == |preds| && Greedy(preds, posts, order) && |order| == |preds|
    ensures Permutation(order, |preds|)
  {
    GreedyIsDistinct(preds, posts, order);
  }

  /** The loop has one outcome. */
  lemma {:induction false} GreedyIsUnique(preds: Waits, posts: seq<bool>, a: seq<nat>, b: seq<nat>, k: nat)
    requires |posts| == |preds| && Greedy(preds, posts, a) && Greedy(preds, posts, b)
    requires k <= |a| && k <= |b|
    ensures a[..k] == b[..k]
  {
    if k > 0 {
      GreedyIsUnique(preds, posts, a, b, k - 1);
      var scheduled := Elements(a[..k - 1]);
      var x, y := a[k - 1], b[k - 1];
      assert Picks(preds, posts, scheduled, x);
      assert b[..k - 1] == a[..k - 1];
      assert Picks(preds, posts, scheduled, y);
      assert x == y;
      assert a[..k] == a[..k - 1] + [x] && b[..k] == b[..k - 1] + [y];
    }
  }

  /**
   When operations other than POSTs wait on each other only in the order the client sent
   them, a remaining POST exists whenever everything waits.
   */
  ghost predicate OnlyPostsCycle(preds: Waits, posts: seq<bool>)
    requires |posts| == |preds|
  {
    forall v, u | 0 <= v < |preds| && !posts[v] && u in preds[v] :: u < |posts| && (posts[u] || u < v)
  }

  /** Each operation other than a POST runs after all it waits for, whatever cycles the POSTs form. */
  lemma NonPostsFollow(preds: Waits, posts: seq<bool>, order: seq<nat>)
    requires |posts| == |preds| && WellFormed(preds) && OnlyPostsCycle(preds, posts)
    requires Greedy(preds, posts, order)
    ensures forall k | 0 <= k < |order| && order[k] < |posts| && !posts[order[k]] :: Follows(preds, order, k)
  {
    forall k | 0 <= k < |order| && order[k] < |posts| && !posts[order[k]]
      ensures Follows(preds, order, k)
    {
    }
  }

  lemma AcyclicHasReady(preds: Waits, scheduled: set<nat>, v: nat)
    requires WellFormed(preds) && Acyclic(preds) && v < |preds| && v !in scheduled
    ensures !Waiting(preds, scheduled)
  {
    var rest := set u | u in Identity(|preds|) && u !in scheduled;
    assert Identity(|preds|)[v] == v;
    assert v in rest;
    assert HasSource(preds, rest);
    var u :| u in rest && preds[u] !! rest;
    forall w | w in preds[u]
      ensures w in scheduled
    {
      assert Identity(|preds|)[w] == w;
    }
    assert Ready(preds, scheduled, u);
  }

  lemma TopologicalIsAcyclic(preds: Waits, t: seq<nat>)
    requires Topological(preds, t)
    ensures Acyclic(preds)
  {
    forall some: set<nat> | some != {} && forall v | v in some :: v < |preds|
      ensures HasSource(preds, some)
    {
      var v :| v in some;
      Remaining(t, |preds|);
      assert v in t;
      var place :| 0 <= place < |t| && t[place] == v;
      var k := 0;
      while t[k] !in some
        invariant k <= place && forall j | 0 <= j < k :: t[j] !in some
        decreases place - k
      {
        k := k + 1;
      }
      assert Follows(preds, t, k);
    }
  }

  /** Every operation, POST or not, runs after all it waits for exactly when there is no cycle. */
  lemma GreedyIsTopological(preds: Waits, posts: seq<bool>, order: seq<nat>)
    requires |posts| == |preds| && WellFormed(preds)
    requires Greedy(preds, posts, order) && |order| == |preds|
    ensures Topological(preds, order) <==> Acyclic(preds)
  {
    if Topological(preds, order) {
      TopologicalIsAcyclic(preds, order);
    }
    if Acyclic(preds) {
      GreedyIsPermutation(preds, posts, order);
      forall k | 0 <= k < |order|
        ensures Follows(preds, order, k)
      {
        assert Picks(preds, posts, Elements(order[..k]), order[k]);
        AcyclicHasReady(preds, Elements(order[..k]), order[k]);
      }
    }
  }

  /** No topological order comes before the loop's in dictionary order. */
  lemma {:induction false} GreedyIsLexLeast(preds: Waits, posts: seq<bool>, order: seq<nat>, t: seq<nat>)
    requires |posts| == |preds| && Greedy(preds, posts, order) && |order| == |preds|
    requires Topological(preds, t)
    ensures LexAtMost(order, t)
  {
    if order != t {
      var k := 0;
      while order[k] == t[k]
        invariant 0 <= k < |order| && order[..k] == t[..k]
        invariant exists j :: k <= j < |order| && order[j] != t[j]
        decreases |order| - k
      {
        assert order[..k + 1] == order[..k] + [order[k]] && t[..k + 1] == t[..k] + [t[k]];
        k := k + 1;
      }
      var scheduled := Elements(order[..k]);
      assert Follows(preds, t, k);
      assert t[k] !in t[..k] by {
        assert forall j | 0 <= j < k :: t[..k][j] == t[j];
      }
      assert Ready(preds, scheduled, t[k]);
      assert Picks(preds, posts, scheduled, order[k]);
      assert FirstDifference(order, t, k);
    }
  }

  ghost predicate WaitsForEarlier(preds: Waits) {
    forall v, u | 0 <= v < |preds| && u in preds[v] :: u < v
  }

  lemma ClientOrderIsTopological(preds: Waits)
    ensures Topological(preds, Identity(|preds|)) <==> WaitsForEarlier(preds)
  {
    var client := Identity(|preds|);
    if WaitsForEarlier(preds) {
      forall k | 0 <= k < |client|
        ensures Follows(preds, client, k)
      {
        forall u | u in preds[k]
          ensures u in Elements(client[..k])
        {
          assert client[..k][u] == u;
        }
      }
    }
    if Topological(preds, client) {
      forall v, u | 0 <= v < |preds| && u in preds[v]
        ensures u < v
      {
        assert Follows(preds, client, v);
        assert u in client[..v];
      }
    }
  }

  lemma ClientOrderIsGreedy(preds: Waits, posts: seq<bool>)
    requires |posts| == |preds| && WaitsForEarlier(preds)
    ensures Greedy(preds, posts, Identity(|preds|))
  {
    var client := Identity(|preds|);
    forall k | 0 <= k < |client|
      ensures Picks(preds, posts, Elements(client[..k]), client[k])
    {
      forall u: nat | u < k
        ensures u in Elements(client[..k])
      {
        assert client[..k][u] == u;
      }
      assert Ready(preds, Elements(client[..k]), k);
    }
  }

  lemma NothingBeforeClientOrder(order: seq<nat>, k: nat)
    requires Distinct(order) && FirstDifference(order, Identity(|order|), k)
    ensures order[k] >= k
  {
    forall j: nat | j < k
      ensures j in order[..k]
    {
      assert Identity(|order|)[..k][j] == j;
    }
    assert order[k] !in order[..k];
  }

  /** The client's order is kept, without breaking a cycle, exactly when nothing waits for a later operation. */
  lemma ClientOrderKept(preds: Waits, posts: seq<bool>, order: seq<nat>)
    requires |posts| == |preds| && WellFormed(preds)
    requires Greedy(preds, posts, order) && |order| == |preds|
    ensures order == Identity(|preds|) && Acyclic(preds) <==> WaitsForEarlier(preds)
  {
    var client := Identity(|preds|);
    ClientOrderIsTopological(preds);
    GreedyIsTopological(preds, posts, order);
    if WaitsForEarlier(preds) {
      TopologicalIsAcyclic(preds, client);
      GreedyIsLexLeast(preds, posts, order, client);
      GreedyIsPermutation(preds, posts, order);
      forall k: nat | FirstDifference(order, client, k)
        ensures order[k] >= client[k]
      {
        NothingBeforeClientOrder(order, k);
      }
    }
  }
}
