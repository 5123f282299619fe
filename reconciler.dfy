/**
 * One run of the connection reconciler (`updateConnections` in
 * neuralNetworkConnections.js): read the groups and the stored connections,
 * repair them when the base conditions hold or regenerate them otherwise,
 * and turn the computed list into one insert and one delete on the
 * `connections` table.
 */
module Reconciler {
  import opened Wrappers
  import opened Store
  import opened Topology

  /** The (source, target, weight) view of the stored connections that the check and the repair work on. */
  function LinksOf(es: seq<Edge>): seq<Link>
  {
    seq(|es|, i requires 0 <= i < |es| => Link(es[i].source, es[i].target, es[i].weight))
  }

  /** Some stored connection joins `s` to `t`. */
  predicate Stored(es: seq<Edge>, s: int, t: int)
  {
    exists e | e in es :: e.source == s && e.target == t
  }

  /** The computed connections whose pair is not stored yet, in order (`connectionsToUpsert`). */
  function Inserts(es: seq<Edge>, computed: seq<Link>): seq<Link>
  {
    if computed == [] then []
    else
      var last := computed[|computed| - 1];
      Inserts(es, computed[..|computed| - 1]) + (if Stored(es, last.source, last.target) then [] else [last])
  }

  /** The stored connections whose pair the computed list lacks (`connectionsToDelete`). */
  function Deletes(es: seq<Edge>, computed: seq<Link>): seq<Edge>
  {
    if es == [] then []
    else
      var last := es[|es| - 1];
      Deletes(es[..|es| - 1], computed) + (if HasLink(computed, last.source, last.target) then [] else [last])
  }

  /** The two filters of the diff. */
  method Diff(es: seq<Edge>, computed: seq<Link>) returns (toInsert: seq<Link>, toDelete: seq<Edge>)
    ensures toInsert == Inserts(es, computed)
    ensures toDelete == Deletes(es, computed)
  {
    toInsert := [];
    for i := 0 to |computed|
      invariant toInsert == Inserts(es, computed[..i])
    {
      assert computed[..i + 1][..i] == computed[..i];
      var c := computed[i];
      if !Stored(es, c.source, c.target) {
        toInsert := toInsert + [c];
      }
    }
    assert computed[..|computed|] == computed;
    toDelete := [];
    for i := 0 to |es|
      invariant toDelete == Deletes(es[..i], computed)
    {
      assert es[..i + 1][..i] == es[..i];
      var e := es[i];
      if !HasLink(computed, e.source, e.target) {
        toDelete := toDelete + [e];
      }
    }
    assert es[..|es|] == es;
  }

  /** A computed connection is inserted exactly when its pair is not stored. */
  lemma {:induction false} InsertsMembers(es: seq<Edge>, computed: seq<Link>)
    ensures forall l :: l in Inserts(es, computed) <==> l in computed && !Stored(es, l.source, l.target)
  {
    if computed != [] {
      var init := computed[..|computed| - 1];
      InsertsMembers(es, init);
      assert computed == init + [computed[|computed| - 1]];
    }
  }

  /** A stored connection is deleted exactly when the computed list lacks its pair. */
  lemma {:induction false} DeletesMembers(es: seq<Edge>, computed: seq<Link>)
    ensures forall e :: e in Deletes(es, computed) <==> e in es && !HasLink(computed, e.source, e.target)
  {
    if es != [] {
      var init := es[..|es| - 1];
      DeletesMembers(init, computed);
      assert es == init + [es[|es| - 1]];
    }
  }

  /** Nothing is inserted when every computed pair is already stored. */
  lemma {:induction false} InsertsNone(es: seq<Edge>, computed: seq<Link>)
    requires forall l | l in computed :: Stored(es, l.source, l.target)
    ensures Inserts(es, computed) == []
  {
    if computed != [] {
      var init := computed[..|computed| - 1];
      assert computed[|computed| - 1] in computed;
      assert forall l | l in init :: l in computed;
      InsertsNone(es, init);
    }
  }

  /** Nothing is deleted when every stored pair is computed. */
  lemma {:induction false} DeletesNone(es: seq<Edge>, computed: seq<Link>)
    requires forall e | e in es :: HasLink(computed, e.source, e.target)
    ensures Deletes(es, computed) == []
  {
    if es != [] {
      var init := es[..|es| - 1];
      assert es[|es| - 1] in es;
      assert forall e | e in init :: e in es;
      DeletesNone(init, computed);
    }
  }

  /** Diffing the stored connections against themselves inserts and deletes nothing. */
  lemma {:induction false} DiffOfStoredIsEmpty(es: seq<Edge>)
    ensures Inserts(es, LinksOf(es)) == []
    ensures Deletes(es, LinksOf(es)) == []
  {
    var ls := LinksOf(es);
    forall l | l in ls ensures Stored(es, l.source, l.target) {
      var i :| 0 <= i < |ls| && ls[i] == l;
      assert es[i] in es;
    }
    forall e | e in es ensures HasLink(ls, e.source, e.target) {
      var i :| 0 <= i < |es| && es[i] == e;
      assert ls[i] in ls;
    }
    InsertsNone(es, ls);
    DeletesNone(es, ls);
  }

  // ---------------------------------------------------------------------
  // Writing the diff back

  /** The rows the insert creates: the store numbers them from `next` on. */
  function Numbered(ls: seq<Link>, next: int): seq<Edge>
  {
    seq(|ls|, i requires 0 <= i < |ls| => Edge(next + i, ls[i].source, ls[i].target, ls[i].weight))
  }

  /** The ids of a list of rows. */
  function Ids(es: seq<Edge>): set<int>
  {
    set e | e in es :: e.id
  }

  /** The rows left after `.delete().in('id', ids)`. */
  function WithoutIds(es: seq<Edge>, ids: set<int>): seq<Edge>
  {
    if es == [] then []
    else
      var last := es[|es| - 1];
      WithoutIds(es[..|es| - 1], ids) + (if last.id in ids then [] else [last])
  }

  /** The `connections` table after the insert and then the delete. */
  function ReconciledEdges(es: seq<Edge>, computed: seq<Link>, next: int): seq<Edge>
  {
    WithoutIds(es + Numbered(Inserts(es, computed), next), Ids(Deletes(es, computed)))
  }

  lemma {:induction false} WithoutIdsMembers(es: seq<Edge>, ids: set<int>)
    ensures forall e :: e in WithoutIds(es, ids) <==> e in es && e.id !in ids
  {
    if es != [] {
      var init := es[..|es| - 1];
      WithoutIdsMembers(init, ids);
      assert es == init + [es[|es| - 1]];
    }
  }

  /** Removing rows keeps the ids distinct. */
  lemma {:induction false} WithoutIdsDistinct(es: seq<Edge>, ids: set<int>)
    requires DistinctIds(es)
    ensures DistinctIds(WithoutIds(es, ids))
  {
    if es != [] {
      var init := es[..|es| - 1];
      var last := es[|es| - 1];
      assert DistinctIds(init);
      WithoutIdsDistinct(init, ids);
      WithoutIdsMembers(init, ids);
      var w := WithoutIds(init, ids);
      if last.id !in ids {
        forall k | 0 <= k < |w| ensures w[k].id != last.id {
          assert w[k] in init;
          var m :| 0 <= m < |init| && init[m] == w[k];
          assert es[m] == w[k];
        }
      }
    }
  }

  /** A row is deleted exactly when it is a stored row whose pair the computed list lacks. */
  lemma {:induction false} DeletedIds(es: seq<Edge>, computed: seq<Link>, next: int)
    requires DistinctIds(es)
    requires forall e | e in es :: e.id < next
    ensures forall e | e in es :: e.id in Ids(Deletes(es, computed)) <==> !HasLink(computed, e.source, e.target)
    ensures forall e | e in Numbered(Inserts(es, computed), next) :: next <= e.id && e.id !in Ids(Deletes(es, computed))
  {
    var nb := Numbered(Inserts(es, computed), next);
    var del := Ids(Deletes(es, computed));
    DeletesMembers(es, computed);
    forall e | e in nb ensures next <= e.id && e.id !in del {
      var i :| 0 <= i < |nb| && nb[i] == e;
      forall d | d in Deletes(es, computed) ensures d.id != e.id {
        assert d in es;
      }
    }
    forall e | e in es ensures e.id in del <==> !HasLink(computed, e.source, e.target) {
      if e.id in del {
        var d :| d in Deletes(es, computed) && d.id == e.id;
        var i :| 0 <= i < |es| && es[i] == d;
        var j :| 0 <= j < |es| && es[j] == e;
        assert i == j;
      }
    }
  }

  /**
   * The rows the reconciler leaves: a stored row survives, id and weight
   * included, exactly when the computed list has its pair; the other rows
   * are the inserted ones.
   */
  lemma {:induction false} ReconciledRows(es: seq<Edge>, computed: seq<Link>, next: int)
    requires DistinctIds(es)
    requires forall e | e in es :: e.id < next
    ensures forall e :: e in ReconciledEdges(es, computed, next) <==>
      (e in es && HasLink(computed, e.source, e.target)) || e in Numbered(Inserts(es, computed), next)
  {
    var all := es + Numbered(Inserts(es, computed), next);
    WithoutIdsMembers(all, Ids(Deletes(es, computed)));
    DeletedIds(es, computed, next);
  }

  /** The table keeps distinct ids, all below the advanced id counter. */
  lemma {:induction false} ReconciledIds(es: seq<Edge>, computed: seq<Link>, next: int)
    requires DistinctIds(es)
    requires forall e | e in es :: e.id < next
    ensures DistinctIds(ReconciledEdges(es, computed, next))
    ensures forall e | e in ReconciledEdges(es, computed, next) :: e.id < next + |Inserts(es, computed)|
  {
    var nb := Numbered(Inserts(es, computed), next);
    var all := es + nb;
    var del := Ids(Deletes(es, computed));
    forall i, j | 0 <= i < j < |all| ensures all[i].id != all[j].id {
      if j < |es| {
        assert all[i] == es[i] && all[j] == es[j];
      } else if i < |es| {
        assert all[i] in es;
        assert all[j] == nb[j - |es|];
      } else {
        assert all[i] == nb[i - |es|] && all[j] == nb[j - |es|];
      }
    }
    WithoutIdsDistinct(all, del);
    WithoutIdsMembers(all, del);
    forall e | e in ReconciledEdges(es, computed, next) ensures e.id < next + |nb| {
      if e in nb {
        var i :| 0 <= i < |nb| && nb[i] == e;
      }
    }
  }

  /** The pairs in the table afterwards are exactly the computed pairs. */
  lemma {:induction false} ReconciledPairs(es: seq<Edge>, computed: seq<Link>, next: int)
    requires DistinctIds(es)
    requires forall e | e in es :: e.id < next
    ensures forall s, t :: Stored(ReconciledEdges(es, computed, next), s, t) <==> HasLink(computed, s, t)
  {
    var ins := Inserts(es, computed);
    var nb := Numbered(ins, next);
    var out := ReconciledEdges(es, computed, next);
    ReconciledRows(es, computed, next);
    InsertsMembers(es, computed);
    forall s, t ensures Stored(out, s, t) <==> HasLink(computed, s, t) {
      if Stored(out, s, t) {
        var e :| e in out && e.source == s && e.target == t;
        if e in nb {
          var i :| 0 <= i < |nb| && nb[i] == e;
          assert ins[i] in ins;
        }
      }
      if HasLink(computed, s, t) {
        var l :| l in computed && l.source == s && l.target == t;
        if Stored(es, s, t) {
          var e :| e in es && e.source == s && e.target == t;
          assert e in out;
        } else {
          assert l in ins;
          var i :| 0 <= i < |ins| && ins[i] == l;
          assert nb[i] in nb;
        }
      }
    }
  }

  /** Deleting nothing leaves the table as it is. */
  lemma {:induction false} WithoutNoIds(es: seq<Edge>)
    ensures WithoutIds(es, {}) == es
  {
    if es != [] {
      WithoutNoIds(es[..|es| - 1]);
      assert es == es[..|es| - 1] + [es[|es| - 1]];
    }
  }

  /** Reconciling the table against its own pairs writes nothing. */
  lemma {:induction false} ReconcileOfStored(es: seq<Edge>, next: int)
    ensures ReconciledEdges(es, LinksOf(es), next) == es
    ensures Inserts(es, LinksOf(es)) == []
  {
    DiffOfStoredIsEmpty(es);
    WithoutNoIds(es);
    var nb := Numbered(Inserts(es, LinksOf(es)), next);
    assert nb == [];
    assert es + nb == es;
    assert Ids(Deletes(es, LinksOf(es))) == {};
  }

  /**
   * When the computed list starts with the admissible stored connections, as
   * the repair's does, every stored row with an admissible pair survives the
   * write-back, id and weight included.
   */
  lemma {:induction false} AdmissibleRowsSurvive(es: seq<Edge>, computed: seq<Link>, next: int,
                                                 g1: seq<int>, g2: seq<int>, f: int)
    requires DistinctIds(es)
    requires forall e | e in es :: e.id < next
    requires var kept := KeepAdmissible(LinksOf(es), g1, g2, f);
      |computed| >= |kept| && computed[..|kept|] == kept
    ensures forall e | e in es && Admissible(Link(e.source, e.target, e.weight), g1, g2, f) ::
      e in ReconciledEdges(es, computed, next)
  {
    var ls := LinksOf(es);
    var kept := KeepAdmissible(ls, g1, g2, f);
    ReconciledRows(es, computed, next);
    KeepAdmissibleMembers(ls, g1, g2, f);
    forall e | e in es && Admissible(Link(e.source, e.target, e.weight), g1, g2, f)
      ensures HasLink(computed, e.source, e.target)
    {
      var l := Link(e.source, e.target, e.weight);
      var i :| 0 <= i < |es| && es[i] == e;
      assert ls[i] == l;
      assert l in kept;
      var j :| 0 <= j < |kept| && kept[j] == l;
      assert computed[j] == computed[..|kept|][j];
      assert computed[j] in computed;
    }
  }

  // ---------------------------------------------------------------------
  // The groups as the store gives them

  /** The members of one group, in table order, are distinct when user ids are. */
  lemma {:induction false} MembersDistinct(users: seq<User>, group: int)
    requires forall i, j | 0 <= i < j < |users| :: users[i].id != users[j].id
    ensures Distinct(Members(users, group))
  {
    if users != [] {
      var init := users[..|users| - 1];
      var last := users[|users| - 1];
      MembersDistinct(init, group);
      var ms := Members(init, group);
      forall x | x in ms ensures x != last.id {
        var u :| u in init && u.id == x && u.groupNumber == group;
        var i :| 0 <= i < |init| && init[i] == u;
        assert users[i] == u;
      }
      if last.groupNumber == group {
        var r := ms + [last.id];
        forall i, j | 0 <= i < j < |r| ensures r[i] != r[j] {
          if j == |ms| {
            assert r[i] in ms;
          } else {
            assert r[i] == ms[i] && r[j] == ms[j];
          }
        }
      }
    }
  }

  /** A participant id belongs to at most one group. */
  lemma {:induction false} MembersDisjoint(users: seq<User>, a: int, g: int, h: int)
    requires forall i, j | 0 <= i < j < |users| :: users[i].id != users[j].id
    requires a in Members(users, g) && g != h
    ensures a !in Members(users, h)
  {
    var u :| u in users && u.id == a && u.groupNumber == g;
    forall v | v in users && v.id == a ensures v.groupNumber == g {
      var i :| 0 <= i < |users| && users[i] == u;
      var j :| 0 <= j < |users| && users[j] == v;
      assert i == j;
    }
  }

  /** The participant lists the reconciler reads satisfy what the repair and the regeneration require. */
  lemma {:induction false} StoreGroups(users: seq<User>, f: int)
    requires forall i, j | 0 <= i < j < |users| :: users[i].id != users[j].id
    requires FinalNodeId(users) == Some(f)
    ensures Groups(Members(users, 1), Members(users, 2), f)
  {
    MembersDistinct(users, 1);
    MembersDistinct(users, 2);
    forall a | a in Members(users, 1) ensures a !in Members(users, 2) {
      MembersDisjoint(users, a, 1, 2);
    }
    assert f in Members(users, FinalNodeGroup);
    MembersDisjoint(users, f, FinalNodeGroup, 1);
    MembersDisjoint(users, f, FinalNodeGroup, 2);
  }

  // ---------------------------------------------------------------------
  // updateConnections

  /** Lines 26-35: repair when the base conditions hold, regenerate otherwise. */
  method ComputeConnections(ls: seq<Link>, g1: seq<int>, g2: seq<int>, f: int, random: nat -> real) returns (computed: seq<Link>)
    requires Groups(g1, g2, f) && UnitDraws(random)
    ensures forall l | l in computed :: Admissible(l, g1, g2, f)
    ensures forall g | g in g2 :: HasLink(computed, g, f)
    ensures !CheckBaseConditions(ls, g1, g2, f) ==> computed == Regenerated(g1, g2, f, random)
    ensures CheckBaseConditions(ls, g1, g2, f) ==>
      var kept := KeepAdmissible(ls, g1, g2, f);
      && computed == Repaired(ls, g1, g2, f)
      && |computed| >= |kept| && computed[..|kept|] == kept
      && NoNewDuplicates(computed, |kept|)
      && (forall k | |kept| <= k < |computed| :: computed[k].weight == DefaultWeight)
      && (forall a | a in g1 :: OutDegree(computed, a) <= Max(ConnectionsPerGroup1, OutDegree(kept, a)))
      && (forall a | a in g1 :: OutDegree(computed, a) >= TopUpDegree(OutDegree(kept, a), |Unlinked(kept, a, g2)|))
      && (forall g | g in g2 :: Covered(computed, g, g1) || Group1Full(computed, g1))
    ensures CheckBaseConditions(ls, g1, g2, f) && (forall l | l in ls :: Admissible(l, g1, g2, f)) ==> computed == ls
  {
    if CheckBaseConditions(ls, g1, g2, f) {
      computed := UpdateExistingConnections(ls, g1, g2, f);
    } else {
      computed := CreateAllConnections(g1, g2, f, random);
      RegeneratedShape(g1, g2, f, random);
      forall l | l in computed ensures Admissible(l, g1, g2, f) {
        var k :| 0 <= k < |computed| && computed[k] == l;
      }
    }
  }

  /**
   * One reconciler run on the store. Without exactly one final node the run
   * fails before writing anything. Otherwise the computed list is the repair
   * of the stored connections when the base conditions hold and the
   * regeneration when they do not; the table then holds the surviving rows
   * and the inserted ones, every Group 2 member is linked to the final node,
   * and a table that already meets the base conditions with no stale
   * connection is left exactly as it was.
   */
  method UpdateConnections(s: Store, random: nat -> real) returns (computed: seq<Link>)
    requires s.Valid() && UnitDraws(random)
    modifies s
    ensures s.Valid()
    ensures s.rounds == old(s.rounds) && s.users == old(s.users)
    ensures s.images == old(s.images) && s.accuracies == old(s.accuracies)
    ensures FinalNodeId(old(s.users)).None? ==> s.State() == old(s.State())
    ensures FinalNodeId(old(s.users)).Some? ==>
      var f := FinalNodeId(old(s.users)).value;
      var g1 := Members(old(s.users), 1);
      var g2 := Members(old(s.users), 2);
      var ls := LinksOf(old(s.edges));
      && s.edges == ReconciledEdges(old(s.edges), computed, old(s.nextEdgeId))
      && s.nextEdgeId == old(s.nextEdgeId) + |Inserts(old(s.edges), computed)|
      && (forall l | l in computed :: Admissible(l, g1, g2, f))
      && (forall g | g in g2 :: HasLink(computed, g, f))
      && (!CheckBaseConditions(ls, g1, g2, f) ==> computed == Regenerated(g1, g2, f, random))
      && (CheckBaseConditions(ls, g1, g2, f) ==>
            && computed == Repaired(ls, g1, g2, f)
            && forall e | e in old(s.edges) && Admissible(Link(e.source, e.target, e.weight), g1, g2, f) :: e in s.edges)
      && (CheckBaseConditions(ls, g1, g2, f) && (forall l | l in ls :: Admissible(l, g1, g2, f)) ==>
            s.State() == old(s.State()))
  {
    computed := [];
    var final := FinalNodeId(s.users);
    if final.None? {
      return;
    }
    var f := final.value;
    var g1 := Members(s.users, 1);
    var g2 := Members(s.users, 2);
    StoreGroups(s.users, f);
    var ls := LinksOf(s.edges);
    computed := ComputeConnections(ls, g1, g2, f, random);
    var toInsert, toDelete := Diff(s.edges, computed);
    ReconciledWf(s.State(), computed);
    if CheckBaseConditions(ls, g1, g2, f) {
      AdmissibleRowsSurvive(s.edges, computed, s.nextEdgeId, g1, g2, f);
      if forall l | l in ls :: Admissible(l, g1, g2, f) {
        ReconcileOfStored(s.edges, s.nextEdgeId);
      }
    }
    s.edges := WithoutIds(s.edges + Numbered(toInsert, s.nextEdgeId), Ids(toDelete));
    s.nextEdgeId := s.nextEdgeId + |toInsert|;
  }

  /** Writing the diff back keeps the store's keys. */
  lemma {:induction false} ReconciledWf(db: Db, computed: seq<Link>)
    requires Wf(db)
    ensures Wf(db.(edges := ReconciledEdges(db.edges, computed, db.nextEdgeId),
                   nextEdgeId := db.nextEdgeId + |Inserts(db.edges, computed)|))
  {
    ReconciledIds(db.edges, computed, db.nextEdgeId);
  }
}
