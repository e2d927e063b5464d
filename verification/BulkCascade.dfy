/**
 The compensation phase of a bulk run: which resources go when a deferred reference
 fails, as a least closed set, and the state that leaves, whatever order they go in.
 */
module BulkCascade {
  import opened Text
  import opened BulkRequest
  import opened BulkState

  ghost function RolledBack(s: State): (gone: set<nat>)
    ensures forall i :: i in gone <==> i in s.created && s.created[i].rolledBack
  {
    set i | i in s.created && s.created[i].rolledBack
  }

  ghost predicate DependsOn(s: State, i: nat, j: nat) {
    i in s.created && j in s.created && s.created[j].bulkId in s.created[i].deps
  }

  /** Holds what is gone already, and whoever depends on one of its members. */
  ghost predicate Closed(s: State, some: set<nat>) {
    && RolledBack(s) <= some
    && forall i, j | j in some && DependsOn(s, i, j) :: i in some
  }

  ghost predicate LeastClosed(s: State, some: set<nat>) {
    Closed(s, some) && forall other: set<nat> | Closed(s, other) :: some <= other
  }

  /** No survivor depends on a bulkId that was rolled back. */
  ghost predicate Settled(s: State) {
    forall i, d | Surviving(s, i) && d in s.created[i].deps :: d !in s.rolledBackIds
  }

  // ----- rolling back a set at once

  ghost function IdsOf(s: State, gone: set<nat>): set<string>
    requires gone <= s.created.Keys
  {
    set i | i in gone :: s.created[i].bulkId
  }

  ghost function NumbersOf(s: State, gone: set<nat>): set<ResourceId>
    requires gone <= s.created.Keys
  {
    set i | i in gone :: s.created[i].id
  }

  /** The state when exactly the resources of gone are rolled back, each for a failed reference. */
  ghost function RollbackSet(s: State, gone: set<nat>): State
    requires gone <= s.created.Keys && s.linked.Keys <= s.created.Keys
  {
    s.(created := map i | i in s.created :: s.created[i].(rolledBack := i in gone || s.created[i].rolledBack),
       bulkIdMap := s.bulkIdMap - IdsOf(s, gone),
       rolledBackIds := s.rolledBackIds + IdsOf(s, gone),
       linked := map j | j in s.linked && s.created[j].id !in NumbersOf(s, gone) ::
         if s.created[j].isGroup then s.linked[j] - NumbersOf(s, gone) else s.linked[j],
       erased := s.erased + NumbersOf(s, gone),
       results := seq(|s.results|, i requires 0 <= i < |s.results| =>
         if i in gone && s.results[i].Some? then Some(Result(400, None, None)) else s.results[i]))
  }

  lemma RollbackSetEmpty(s: State)
    requires s.linked.Keys <= s.created.Keys
    ensures RollbackSet(s, {}) == s
  {
    var t := RollbackSet(s, {});
    assert t.created == s.created;
    assert NumbersOf(s, {}) == {};
    assert t.linked.Keys == s.linked.Keys;
    forall j | j in s.linked
      ensures t.linked[j] == s.linked[j]
    {
    }
    assert t.linked == s.linked;
    assert t.results == s.results;
  }

  /** One more member rolled back: the order of the members makes no difference. */
  lemma RollbackSetGrows(s: State, gone: set<nat>, i: nat)
    requires gone <= s.created.Keys && s.linked.Keys <= s.created.Keys
    requires i in s.created && i !in gone && !s.created[i].rolledBack && i < |s.results|
    ensures Rollback(RollbackSet(s, gone), i, 400) == RollbackSet(s, gone + {i})
  {
    var t, u := RollbackSet(s, gone), RollbackSet(s, gone + {i});
    var v := Rollback(t, i, 400);
    assert IdsOf(s, gone + {i}) == IdsOf(s, gone) + {s.created[i].bulkId};
    assert NumbersOf(s, gone + {i}) == NumbersOf(s, gone) + {s.created[i].id};
    assert v.created == u.created;
    RollbackSetGrowsResults(s, gone, i);
    RollbackSetGrowsLinks(s, gone, i);
  }

  lemma RollbackSetGrowsResults(s: State, gone: set<nat>, i: nat)
    requires gone <= s.created.Keys && s.linked.Keys <= s.created.Keys
    requires i in s.created && i !in gone && !s.created[i].rolledBack && i < |s.results|
    ensures Rollback(RollbackSet(s, gone), i, 400).results == RollbackSet(s, gone + {i}).results
  {
  }

  lemma RollbackSetGrowsLinks(s: State, gone: set<nat>, i: nat)
    requires gone <= s.created.Keys && s.linked.Keys <= s.created.Keys
    requires i in s.created && i !in gone && !s.created[i].rolledBack && i < |s.results|
    ensures Rollback(RollbackSet(s, gone), i, 400).linked == RollbackSet(s, gone + {i}).linked
  {
    var v, u := Rollback(RollbackSet(s, gone), i, 400).linked, RollbackSet(s, gone + {i}).linked;
    assert NumbersOf(s, gone + {i}) == NumbersOf(s, gone) + {s.created[i].id};
    assert v.Keys == u.Keys;
    forall j | j in u
      ensures v[j] == u[j]
    {
    }
  }

  // ----- the fixups of one phase, in their order

  ghost predicate KnownRecords(s: State, fixups: seq<Fixup>) {
    && s.linked.Keys <= s.created.Keys
    && (forall i | i in s.created :: i < |s.results|)
    && (forall k | 0 <= k < |fixups| :: fixups[k].origIdx in s.created)
  }

  ghost function ApplyFixups(s: State, store: Store, fixups: seq<Fixup>): (t: State)
    requires KnownRecords(s, fixups)
    ensures KnownRecords(t, fixups) && t.created.Keys == s.created.Keys
  {
    if fixups == [] then s
    else
      var front, f := fixups[..|fixups| - 1], fixups[|fixups| - 1];
      var t := ApplyFixups(s, store, front);
      ApplyFixup(t, store, f)
  }

  /** t is what the compensation phase makes of u: the least closed set is gone, nothing else changed. */
  ghost predicate Compensated(u: State, t: State) {
    exists gone: set<nat> :: CompensatedBy(u, t, gone)
  }

  ghost predicate CompensatedBy(u: State, t: State, gone: set<nat>) {
    && u.linked.Keys <= u.created.Keys
    && gone <= u.created.Keys && gone !! RolledBack(u)
    && t == RollbackSet(u, gone)
    && LeastClosed(u, RolledBack(u) + gone)
  }

  /** The phase has one outcome. */
  lemma CompensationIsUnique(u: State, t: State, t': State)
    requires Compensated(u, t) && Compensated(u, t')
    ensures t == t'
  {
    var gone :| CompensatedBy(u, t, gone);
    var gone' :| CompensatedBy(u, t', gone');
    assert RolledBack(u) + gone == RolledBack(u) + gone';
    assert gone == gone';
  }

  lemma CompensationRollsBackLeast(u: State, t: State)
    requires Compensated(u, t)
    ensures LeastClosed(u, RolledBack(t))
  {
    var gone :| CompensatedBy(u, t, gone);
    assert RolledBack(t) == RolledBack(u) + gone;
  }
}
