/**
 * The connection-topology reconciler (neuralNetworkConnections.js): the
 * invariant check over the edge set, the incremental repair, the full
 * regeneration and the diff that turns a computed edge list into inserts and
 * deletes on the `connections` table.
 *
 * Participants are given by id: `g1` and `g2` are the Group 1 and Group 2
 * members in table order and `f` is the final node.
 */
module Topology {
  import opened Wrappers
  import opened Store

  /** A computed connection: a pair of participants and a weight (the store assigns ids on insert). */
  datatype Link = Link(source: int, target: int, weight: real)

  /** Every Group 1 member is meant to have exactly this many outgoing connections. */
  const ConnectionsPerGroup1: int := 2

  /** The weight of every connection the reconciler creates. */
  const DefaultWeight: real := 0.5

  function Min(a: int, b: int): int { if a <= b then a else b }

  function Max(a: int, b: int): int { if a <= b then b else a }

  predicate Distinct(xs: seq<int>)
  {
    forall i, j | 0 <= i < j < |xs| :: xs[i] != xs[j]
  }

  /**
   * What the store guarantees of the participant lists: ids are keys and a
   * participant has one group, so the lists are duplicate-free, disjoint and
   * do not hold the final node.
   */
  predicate Groups(g1: seq<int>, g2: seq<int>, f: int)
  {
    && Distinct(g1) && Distinct(g2)
    && (forall a | a in g1 :: a !in g2)
    && f !in g1 && f !in g2
  }

  /** Some connection goes from `s` to `t`. */
  predicate HasLink(ls: seq<Link>, s: int, t: int)
  {
    exists l | l in ls :: l.source == s && l.target == t
  }

  /** The number of connections leaving `s`. */
  function OutDegree(ls: seq<Link>, s: int): nat
  {
    if ls == [] then 0
    else OutDegree(ls[..|ls| - 1], s) + (if ls[|ls| - 1].source == s then 1 else 0)
  }

  /** `g` has an inbound connection from some Group 1 member. */
  predicate Covered(ls: seq<Link>, g: int, g1: seq<int>)
  {
    exists l | l in ls :: l.target == g && l.source in g1
  }

  /** No connection at index `n` or later repeats the (source, target) pair of an earlier one. */
  predicate NoNewDuplicates(ls: seq<Link>, n: nat)
  {
    forall k | n <= k < |ls| :: !HasLink(ls[..k], ls[k].source, ls[k].target)
  }

  // ---------------------------------------------------------------------
  // Basic facts about the helpers

  lemma {:induction false} OutDegreeAppend(ls: seq<Link>, l: Link, s: int)
    ensures OutDegree(ls + [l], s) == OutDegree(ls, s) + (if l.source == s then 1 else 0)
  {
    assert (ls + [l])[..|ls|] == ls;
  }

  /** `ls` is a prefix of `r`, so everything in `ls` is in `r`. */
  lemma {:induction false} PrefixMembers(ls: seq<Link>, r: seq<Link>)
    requires |r| >= |ls| && r[..|ls|] == ls
    ensures forall l | l in ls :: l in r
  {
    forall l | l in ls ensures l in r {
      var i :| 0 <= i < |ls| && ls[i] == l;
      assert r[i] == l;
    }
  }

  /** Appending connections that do not leave `s` keeps the out-degree of `s`. */
  lemma {:induction false} OutDegreeOtherSources(ls: seq<Link>, r: seq<Link>, s: int)
    requires |r| >= |ls| && r[..|ls|] == ls
    requires forall k | |ls| <= k < |r| :: r[k].source != s
    ensures OutDegree(r, s) == OutDegree(ls, s)
  {
    if |r| > |ls| {
      var r' := r[..|r| - 1];
      assert r'[..|ls|] == ls;
      OutDegreeOtherSources(ls, r', s);
    } else {
      assert r == ls;
    }
  }

  /** Appending connections never lowers an out-degree. */
  lemma {:induction false} OutDegreeMonotone(ls: seq<Link>, r: seq<Link>, s: int)
    requires |r| >= |ls| && r[..|ls|] == ls
    ensures OutDegree(r, s) >= OutDegree(ls, s)
  {
    if |r| > |ls| {
      var r' := r[..|r| - 1];
      assert r'[..|ls|] == ls;
      OutDegreeMonotone(ls, r', s);
    } else {
      assert r == ls;
    }
  }

  /** Appending connections that do not leave `s` keeps the set of targets linked from `s`. */
  lemma {:induction false} HasLinkOtherSources(ls: seq<Link>, r: seq<Link>, s: int, t: int)
    requires |r| >= |ls| && r[..|ls|] == ls
    requires forall k | |ls| <= k < |r| :: r[k].source != s
    ensures HasLink(r, s, t) == HasLink(ls, s, t)
  {
    PrefixMembers(ls, r);
    if HasLink(r, s, t) {
      var l :| l in r && l.source == s && l.target == t;
      var k :| 0 <= k < |r| && r[k] == l;
      assert k < |ls|;
      assert ls[k] == l;
    }
  }

  /** The duplicate-freedom of a prefix carries over to each later phase that appends fresh pairs. */
  lemma {:induction false} NoNewDuplicatesTrans(a: seq<Link>, b: seq<Link>, n: nat)
    requires |b| >= |a| >= n && b[..|a|] == a
    requires NoNewDuplicates(a, n) && NoNewDuplicates(b, |a|)
    ensures NoNewDuplicates(b, n)
  {
    forall k | n <= k < |b| ensures !HasLink(b[..k], b[k].source, b[k].target) {
      if k < |a| {
        assert b[..k] == a[..k];
        assert b[k] == a[k];
      }
    }
  }

  // ---------------------------------------------------------------------
  // checkBaseConditions

  function AllLinkedToFinal(g2: seq<int>, ls: seq<Link>, f: int): (ok: bool)
    ensures ok <==> forall g | g in g2 :: HasLink(ls, g, f)
  {
    if g2 == [] then true
    else
      assert forall g | g in g2 :: g == g2[0] || g in g2[1..];
      HasLink(ls, g2[0], f) && AllLinkedToFinal(g2[1..], ls, f)
  }

  /** `a` has exactly `k` outgoing connections. */
  predicate HasDegree(ls: seq<Link>, a: int, k: int)
  {
    OutDegree(ls, a) == k
  }

  function AllHaveDegree(g1: seq<int>, ls: seq<Link>, k: int): (ok: bool)
    ensures ok <==> forall a | a in g1 :: HasDegree(ls, a, k)
  {
    if g1 == [] then true
    else
      var rest := AllHaveDegree(g1[1..], ls, k);
      assert forall a | a in g1 :: a == g1[0] || a in g1[1..];
      HasDegree(ls, g1[0], k) && rest
  }

  function AllCovered(g2: seq<int>, ls: seq<Link>, g1: seq<int>): (ok: bool)
    ensures ok <==> forall g | g in g2 :: Covered(ls, g, g1)
  {
    if g2 == [] then true
    else
      assert forall g | g in g2 :: g == g2[0] || g in g2[1..];
      Covered(ls, g2[0], g1) && AllCovered(g2[1..], ls, g1)
  }

  /**
   * The reconciler's invariant: every Group 2 member is linked to the final
   * node, every Group 1 member has exactly two outgoing connections (to any
   * target) and every Group 2 member has an inbound connection from Group 1.
   */
  function CheckBaseConditions(ls: seq<Link>, g1: seq<int>, g2: seq<int>, f: int): (ok: bool)
    ensures ok <==>
      && (forall g | g in g2 :: HasLink(ls, g, f))
      && (forall a | a in g1 :: OutDegree(ls, a) == ConnectionsPerGroup1)
      && (forall g | g in g2 :: Covered(ls, g, g1))
  {
    AllLinkedToFinal(g2, ls, f) && AllHaveDegree(g1, ls, ConnectionsPerGroup1) && AllCovered(g2, ls, g1)
  }

  // ---------------------------------------------------------------------
  // updateExistingConnections, phase 1: drop connections to or from participants outside the groups

  /** A connection whose source is in Group 1, Group 2 or the final node and whose target is in Group 2 or the final node. */
  predicate Admissible(l: Link, g1: seq<int>, g2: seq<int>, f: int)
  {
    && (l.source in g1 || l.source in g2 || l.source == f)
    && (l.target in g2 || l.target == f)
  }

  /** The admissible connections of `ls`, in order. */
  function KeepAdmissible(ls: seq<Link>, g1: seq<int>, g2: seq<int>, f: int): seq<Link>
  {
    if ls == [] then []
    else
      var last := ls[|ls| - 1];
      KeepAdmissible(ls[..|ls| - 1], g1, g2, f) + (if Admissible(last, g1, g2, f) then [last] else [])
  }

  /** Repair drops exactly the inadmissible connections and keeps every other one, weight included. */
  lemma {:induction false} KeepAdmissibleMembers(ls: seq<Link>, g1: seq<int>, g2: seq<int>, f: int)
    ensures forall l :: l in KeepAdmissible(ls, g1, g2, f) <==> l in ls && Admissible(l, g1, g2, f)
  {
    if ls != [] {
      var init := ls[..|ls| - 1];
      KeepAdmissibleMembers(init, g1, g2, f);
      assert ls == init + [ls[|ls| - 1]];
    }
  }

  /** When every connection is admissible, phase 1 keeps the list as it is. */
  lemma {:induction false} KeepAdmissibleAll(ls: seq<Link>, g1: seq<int>, g2: seq<int>, f: int)
    requires forall l | l in ls :: Admissible(l, g1, g2, f)
    ensures KeepAdmissible(ls, g1, g2, f) == ls
  {
    if ls != [] {
      var init := ls[..|ls| - 1];
      assert forall l | l in init :: l in ls;
      KeepAdmissibleAll(init, g1, g2, f);
      assert ls == init + [ls[|ls| - 1]];
    }
  }

  method RemoveInvalidConnections(ls: seq<Link>, g1: seq<int>, g2: seq<int>, f: int) returns (kept: seq<Link>)
    ensures kept == KeepAdmissible(ls, g1, g2, f)
  {
    kept := [];
    for i := 0 to |ls|
      invariant kept == KeepAdmissible(ls[..i], g1, g2, f)
    {
      assert ls[..i + 1][..i] == ls[..i];
      if Admissible(ls[i], g1, g2, f) {
        kept := kept + [ls[i]];
      }
    }
    assert ls[..|ls|] == ls;
  }

  // ---------------------------------------------------------------------
  // Phase 2: link every Group 2 member to the final node

  /** Phase 2 as a function: each Group 2 member in turn gets a connection to the final node unless it already has one. */
  function FinalLinked(ls: seq<Link>, g2: seq<int>, f: int): seq<Link>
  {
    if g2 == [] then ls
    else
      var r := FinalLinked(ls, g2[..|g2| - 1], f);
      var g := g2[|g2| - 1];
      if HasLink(r, g, f) then r else r + [Link(g, f, DefaultWeight)]
  }

  method ConnectGroup2ToFinal(ls: seq<Link>, g2: seq<int>, f: int) returns (r: seq<Link>)
    requires Distinct(g2)
    ensures r == FinalLinked(ls, g2, f)
    ensures |r| >= |ls| && r[..|ls|] == ls
    ensures forall g | g in g2 :: HasLink(r, g, f)
    ensures forall k | |ls| <= k < |r| ::
      r[k].source in g2 && r[k].target == f && r[k].weight == DefaultWeight && !HasLink(ls, r[k].source, f)
    ensures NoNewDuplicates(r, |ls|)
    ensures (forall g | g in g2 :: HasLink(ls, g, f)) ==> r == ls
  {
    r := ls;
    for i := 0 to |g2|
      invariant r == FinalLinked(ls, g2[..i], f)
    {
      var g := g2[i];
      assert g2[..i + 1][..i] == g2[..i];
      if !HasLink(r, g, f) {
        r := r + [Link(g, f, DefaultWeight)];
      }
    }
    assert g2[..|g2|] == g2;
    FinalLinkedFacts(ls, g2, f);
  }

  /**
   * What phase 2 guarantees: the stored list stays in front, every Group 2
   * member ends up linked to the final node, and only fresh default-weight
   * links from members that had none are appended.
   */
  lemma {:induction false} FinalLinkedFacts(ls: seq<Link>, g2: seq<int>, f: int)
    ensures FinalLinksUpTo(ls, FinalLinked(ls, g2, f), g2, f)
    ensures (forall g | g in g2 :: HasLink(ls, g, f)) ==> FinalLinked(ls, g2, f) == ls
  {
    if g2 == [] {
      assert ls[..|ls|] == ls;
    } else {
      var init := g2[..|g2| - 1];
      var g := g2[|g2| - 1];
      assert g2 == init + [g];
      FinalLinkedFacts(ls, init, f);
      var r := FinalLinked(ls, init, f);
      if !HasLink(r, g, f) {
        FinalLinkStep(ls, r, init, g, f);
        assert !HasLink(ls, g, f) by {
          PrefixMembers(ls, r);
        }
      } else {
        FinalLinkSkip(ls, r, init, g, f);
      }
    }
  }

  /** The invariant of the loop of phase 2 after the members `done`. */
  predicate FinalLinksUpTo(ls: seq<Link>, r: seq<Link>, done: seq<int>, f: int)
  {
    && |r| >= |ls| && r[..|ls|] == ls
    && (forall g | g in done :: HasLink(r, g, f))
    && (forall k | |ls| <= k < |r| ::
          r[k].source in done && r[k].target == f && r[k].weight == DefaultWeight && !HasLink(ls, r[k].source, f))
    && NoNewDuplicates(r, |ls|)
  }

  lemma {:induction false} FinalLinkStep(ls: seq<Link>, r: seq<Link>, done: seq<int>, g: int, f: int)
    requires FinalLinksUpTo(ls, r, done, f) && !HasLink(r, g, f)
    ensures FinalLinksUpTo(ls, r + [Link(g, f, DefaultWeight)], done + [g], f)
  {
    var l := Link(g, f, DefaultWeight);
    var r' := r + [l];
    AppendFresh(r, |ls|, l);
    assert r'[..|ls|] == ls by {
      assert r'[..|r|] == r;
    }
    FinalLinkCovers(r, done, g, f);
    FinalLinkShape(ls, r, done, g, f);
  }

  lemma {:induction false} FinalLinkCovers(r: seq<Link>, done: seq<int>, g: int, f: int)
    requires forall x | x in done :: HasLink(r, x, f)
    ensures forall x | x in done + [g] :: HasLink(r + [Link(g, f, DefaultWeight)], x, f)
  {
    var r' := r + [Link(g, f, DefaultWeight)];
    assert r'[|r|] in r';
    forall x | x in done + [g] ensures HasLink(r', x, f) {
      if x != g {
        var l :| l in r && l.source == x && l.target == f;
        var i :| 0 <= i < |r| && r[i] == l;
        assert r'[i] == l;
      }
    }
  }

  lemma {:induction false} FinalLinkShape(ls: seq<Link>, r: seq<Link>, done: seq<int>, g: int, f: int)
    requires |r| >= |ls| && r[..|ls|] == ls && !HasLink(r, g, f)
    requires forall k | |ls| <= k < |r| ::
      r[k].source in done && r[k].target == f && r[k].weight == DefaultWeight && !HasLink(ls, r[k].source, f)
    ensures var r' := r + [Link(g, f, DefaultWeight)];
      forall k | |ls| <= k < |r'| ::
        r'[k].source in done + [g] && r'[k].target == f && r'[k].weight == DefaultWeight && !HasLink(ls, r'[k].source, f)
  {
    PrefixMembers(ls, r);
    var r' := r + [Link(g, f, DefaultWeight)];
    forall k | |ls| <= k < |r'|
      ensures r'[k].source in done + [g] && r'[k].target == f && r'[k].weight == DefaultWeight && !HasLink(ls, r'[k].source, f)
    {
      if k < |r| {
        assert r'[k] == r[k];
      }
    }
  }

  /** Appending a connection whose pair is new keeps the later part of the list free of repeated pairs. */
  lemma {:induction false} AppendFresh(r: seq<Link>, n: nat, l: Link)
    requires n <= |r| && NoNewDuplicates(r, n) && !HasLink(r, l.source, l.target)
    ensures NoNewDuplicates(r + [l], n)
  {
    var r' := r + [l];
    forall k | n <= k < |r'| ensures !HasLink(r'[..k], r'[k].source, r'[k].target) {
      if k < |r| {
        assert r'[..k] == r[..k] && r'[k] == r[k];
      } else {
        assert r'[..k] == r;
      }
    }
  }

  lemma {:induction false} FinalLinkSkip(ls: seq<Link>, r: seq<Link>, done: seq<int>, g: int, f: int)
    requires FinalLinksUpTo(ls, r, done, f) && HasLink(r, g, f)
    ensures FinalLinksUpTo(ls, r, done + [g], f)
  {
    forall k | |ls| <= k < |r| ensures r[k].source in done + [g] {
      assert r[k].source in done;
    }
  }

  // ---------------------------------------------------------------------
  // Phase 3: top up Group 1 members with fewer than two outgoing connections

  /** The Group 2 members `a` is not yet linked to, in list order. */
  function Unlinked(ls: seq<Link>, a: int, g2: seq<int>): (us: seq<int>)
    ensures forall g :: g in us <==> g in g2 && !HasLink(ls, a, g)
    ensures Distinct(g2) ==> Distinct(us)
  {
    if g2 == [] then []
    else
      var last := g2[|g2| - 1];
      var init := g2[..|g2| - 1];
      assert g2 == init + [last];
      var rest := Unlinked(ls, a, init);
      if HasLink(ls, a, last) then rest else rest + [last]
  }

  lemma {:induction false} UnlinkedSame(ls: seq<Link>, r: seq<Link>, a: int, g2: seq<int>)
    requires forall g :: HasLink(r, a, g) == HasLink(ls, a, g)
    ensures Unlinked(r, a, g2) == Unlinked(ls, a, g2)
  {
    if g2 != [] {
      UnlinkedSame(ls, r, a, g2[..|g2| - 1]);
    }
  }

  /** The out-degree a Group 1 member reaches after the top-up: up to two, limited by the Group 2 members still free for it. */
  function TopUpDegree(k: int, free: int): int
  {
    if k >= ConnectionsPerGroup1 then k else Min(ConnectionsPerGroup1, k + free)
  }

  /** The connections the top-up gives `a`: one to each of the first `2 - k` Group 2 members it is not linked to, in list order. */
  function TopUpLinks(ls: seq<Link>, a: int, g2: seq<int>): seq<Link>
  {
    var k := OutDegree(ls, a);
    var avail := Unlinked(ls, a, g2);
    if k >= ConnectionsPerGroup1 then [] else Fanout(a, avail[..Min(ConnectionsPerGroup1 - k, |avail|)])
  }

  /** Phase 3 as a function: the Group 1 members are topped up in list order. */
  function TopUp(ls: seq<Link>, g1: seq<int>, g2: seq<int>): seq<Link>
  {
    if g1 == [] then ls
    else
      var r := TopUp(ls, g1[..|g1| - 1], g2);
      r + TopUpLinks(r, g1[|g1| - 1], g2)
  }

  /** One iteration of the Group 1 top-up: give `a` up to `2 - k` new connections, to the free Group 2 members in list order. */
  method TopUpMember(ls: seq<Link>, a: int, g2: seq<int>) returns (r: seq<Link>)
    requires Distinct(g2)
    ensures r == ls + TopUpLinks(ls, a, g2)
    ensures |r| >= |ls| && r[..|ls|] == ls
    ensures forall k | |ls| <= k < |r| :: r[k].source == a && r[k].target in g2 && r[k].weight == DefaultWeight
    ensures NoNewDuplicates(r, |ls|)
    ensures OutDegree(r, a) == TopUpDegree(OutDegree(ls, a), |Unlinked(ls, a, g2)|)
    ensures OutDegree(ls, a) >= ConnectionsPerGroup1 ==> r == ls
  {
    r := ls;
    var need := ConnectionsPerGroup1 - OutDegree(ls, a);
    var avail := Unlinked(ls, a, g2);
    var j := 0;
    if need > 0 {
      while j < need && j < |avail|
        invariant 0 <= j <= |avail| && j <= need
        invariant r == ls + Fanout(a, avail[..j])
      {
        assert ls + Fanout(a, avail[..j + 1]) == r + [Link(a, avail[j], DefaultWeight)] by {
          assert avail[..j + 1] == avail[..j] + [avail[j]];
          FanoutSnoc(a, avail[..j], avail[j]);
        }
        r := r + [Link(a, avail[j], DefaultWeight)];
        j := j + 1;
      }
    }
    TopUpLinksFacts(ls, a, g2);
  }

  /** What the top-up of one member guarantees: fresh, default-weight links from `a` to Group 2 that bring it to `TopUpDegree`. */
  lemma {:induction false} TopUpLinksFacts(ls: seq<Link>, a: int, g2: seq<int>)
    requires Distinct(g2)
    ensures var r := ls + TopUpLinks(ls, a, g2);
      && |r| >= |ls| && r[..|ls|] == ls
      && (forall k | |ls| <= k < |r| :: r[k].source == a && r[k].target in g2 && r[k].weight == DefaultWeight)
      && NoNewDuplicates(r, |ls|)
      && OutDegree(r, a) == TopUpDegree(OutDegree(ls, a), |Unlinked(ls, a, g2)|)
      && (OutDegree(ls, a) >= ConnectionsPerGroup1 ==> r == ls)
  {
    var d := OutDegree(ls, a);
    var avail := Unlinked(ls, a, g2);
    var n := if d >= ConnectionsPerGroup1 then 0 else Min(ConnectionsPerGroup1 - d, |avail|);
    assert TopUpLinks(ls, a, g2) == Fanout(a, avail[..n]) by {
      if d >= ConnectionsPerGroup1 {
        assert avail[..0] == [];
      }
    }
    TopUpPrefix(ls, a, g2, avail, n);
    var r := ls + Fanout(a, avail[..n]);
    forall k | |ls| <= k < |r| ensures r[k].source == a && r[k].target in g2 && r[k].weight == DefaultWeight {
      assert r[|ls| + (k - |ls|)] == Link(a, avail[k - |ls|], DefaultWeight);
      assert avail[k - |ls|] in avail;
    }
  }

  /** The first `j` top-up connections of `a`: fresh pairs, each raising the out-degree of `a` by one. */
  lemma {:induction false} TopUpPrefix(ls: seq<Link>, a: int, g2: seq<int>, avail: seq<int>, j: nat)
    requires Distinct(g2) && avail == Unlinked(ls, a, g2) && j <= |avail|
    ensures var r := ls + Fanout(a, avail[..j]);
      && |r| == |ls| + j && r[..|ls|] == ls
      && (forall m | 0 <= m < j :: r[|ls| + m] == Link(a, avail[m], DefaultWeight))
      && OutDegree(r, a) == OutDegree(ls, a) + j
      && NoNewDuplicates(r, |ls|)
  {
    if j == 0 {
      assert ls + Fanout(a, avail[..0]) == ls by {
        assert avail[..0] == [];
      }
    } else {
      var r := ls + Fanout(a, avail[..j - 1]);
      assert ls + Fanout(a, avail[..j]) == r + [Link(a, avail[j - 1], DefaultWeight)] by {
        assert avail[..j] == avail[..j - 1] + [avail[j - 1]];
        FanoutSnoc(a, avail[..j - 1], avail[j - 1]);
      }
      TopUpPrefix(ls, a, g2, avail, j - 1);
      TopUpStep(ls, r, a, g2, avail, j - 1);
    }
  }

  /** Appending a link from `a` to the next free Group 2 member keeps the top-up's loop invariant. */
  lemma {:induction false} TopUpStep(ls: seq<Link>, r: seq<Link>, a: int, g2: seq<int>, avail: seq<int>, j: nat)
    requires Distinct(g2) && avail == Unlinked(ls, a, g2) && j < |avail|
    requires |r| == |ls| + j && r[..|ls|] == ls
    requires forall m | 0 <= m < j :: r[|ls| + m] == Link(a, avail[m], DefaultWeight)
    requires NoNewDuplicates(r, |ls|)
    ensures var r' := r + [Link(a, avail[j], DefaultWeight)];
      && |r'| == |ls| + j + 1 && r'[..|ls|] == ls
      && (forall m | 0 <= m < j + 1 :: r'[|ls| + m] == Link(a, avail[m], DefaultWeight))
      && OutDegree(r', a) == OutDegree(r, a) + 1
      && NoNewDuplicates(r', |ls|)
  {
    var l := Link(a, avail[j], DefaultWeight);
    assert avail[j] in avail;
    forall k | 0 <= k < |r| ensures !(r[k].source == a && r[k].target == avail[j]) {
      if k < |ls| {
        assert r[k] == ls[k];
        assert r[k] in ls;
      } else {
        assert r[|ls| + (k - |ls|)] == Link(a, avail[k - |ls|], DefaultWeight);
        assert avail[k - |ls|] != avail[j];
      }
    }
    assert !HasLink(r, a, avail[j]);
    OutDegreeAppend(r, l, a);
    var r' := r + [l];
    assert r'[..|r|] == r;
    assert r'[..|ls|] == ls;
    AppendFresh(r, |ls|, l);
  }

  method TopUpGroup1(ls: seq<Link>, g1: seq<int>, g2: seq<int>) returns (r: seq<Link>)
    requires Distinct(g1) && Distinct(g2)
    ensures r == TopUp(ls, g1, g2)
    ensures |r| >= |ls| && r[..|ls|] == ls
    ensures forall k | |ls| <= k < |r| ::
      r[k].source in g1 && r[k].target in g2 && r[k].weight == DefaultWeight
    ensures NoNewDuplicates(r, |ls|)
    ensures forall a | a in g1 :: OutDegree(r, a) == TopUpDegree(OutDegree(ls, a), |Unlinked(ls, a, g2)|)
    ensures (forall a | a in g1 :: OutDegree(ls, a) >= ConnectionsPerGroup1) ==> r == ls
  {
    r := ls;
    for i := 0 to |g1|
      invariant r == TopUp(ls, g1[..i], g2)
    {
      assert TopUp(ls, g1[..i + 1], g2) == r + TopUpLinks(r, g1[i], g2) by {
        assert g1[..i + 1][..i] == g1[..i];
      }
      r := TopUpMember(r, g1[i], g2);
    }
    assert g1[..|g1|] == g1;
    TopUpFacts(ls, g1, g2);
  }

  /**
   * What the top-up of Group 1 guarantees: only fresh, default-weight links
   * from Group 1 to Group 2 are appended, each member ends at its
   * `TopUpDegree`, and nothing changes when every member already has two.
   */
  lemma {:induction false} TopUpFacts(ls: seq<Link>, g1: seq<int>, g2: seq<int>)
    requires Distinct(g1) && Distinct(g2)
    ensures var r := TopUp(ls, g1, g2);
      && |r| >= |ls| && r[..|ls|] == ls
      && (forall k | |ls| <= k < |r| :: r[k].source in g1 && r[k].target in g2 && r[k].weight == DefaultWeight)
      && NoNewDuplicates(r, |ls|)
      && (forall a | a in g1 :: OutDegree(r, a) == TopUpDegree(OutDegree(ls, a), |Unlinked(ls, a, g2)|))
      && ((forall a | a in g1 :: OutDegree(ls, a) >= ConnectionsPerGroup1) ==> r == ls)
  {
    if g1 != [] {
      var init := g1[..|g1| - 1];
      var a := g1[|g1| - 1];
      assert g1 == init + [a];
      assert a !in init;
      assert Distinct(init) by {
        forall i, j | 0 <= i < j < |init| ensures init[i] != init[j] {
          assert init[i] == g1[i] && init[j] == g1[j];
        }
      }
      TopUpFacts(ls, init, g2);
      var r0 := TopUp(ls, init, g2);
      var r := r0 + TopUpLinks(r0, a, g2);
      assert TopUp(ls, g1, g2) == r;
      TopUpLinksFacts(r0, a, g2);
      assert r[..|ls|] == ls by {
        PrefixTrans(ls, r0, r);
      }
      assert NoNewDuplicates(r, |ls|) by {
        NoNewDuplicatesTrans(r0, r, |ls|);
      }
      assert forall k | |ls| <= k < |r| :: r[k].source in g1 && r[k].target in g2 && r[k].weight == DefaultWeight by {
        forall k | |ls| <= k < |r| ensures r[k].source in g1 && r[k].target in g2 && r[k].weight == DefaultWeight {
          if k < |r0| {
            assert r[k] == r0[k];
          }
        }
      }
      forall b | b in g1 ensures OutDegree(r, b) == TopUpDegree(OutDegree(ls, b), |Unlinked(ls, b, g2)|) {
        if b == a {
          OutDegreeOtherSources(ls, r0, a);
          forall g ensures HasLink(r0, a, g) == HasLink(ls, a, g) {
            HasLinkOtherSources(ls, r0, a, g);
          }
          UnlinkedSame(ls, r0, a, g2);
        } else {
          assert b in init;
          OutDegreeOtherSources(r0, r, b);
        }
      }
    }
  }

  // ---------------------------------------------------------------------
  // Phase 4 (also the last step of the regeneration): give every Group 2 member an inbound Group 1 connection

  /** Every Group 1 member already has two or more outgoing connections. */
  predicate Group1Full(ls: seq<Link>, g1: seq<int>)
  {
    forall a | a in g1 :: OutDegree(ls, a) >= ConnectionsPerGroup1
  }

  /** The first Group 1 member with fewer than two outgoing connections (the `find` at lines 163-165 and 211-213). */
  function FirstWithRoom(g1: seq<int>, ls: seq<Link>): (a: Option<int>)
    ensures a.Some? ==> a.value in g1 && OutDegree(ls, a.value) < ConnectionsPerGroup1
    ensures a.None? <==> Group1Full(ls, g1)
  {
    if g1 == [] then None
    else if OutDegree(ls, g1[0]) < ConnectionsPerGroup1 then Some(g1[0])
    else
      var rest := FirstWithRoom(g1[1..], ls);
      assert forall b | b in g1 :: b == g1[0] || b in g1[1..];
      assert rest.Some? ==> rest.value in g1;
      rest
  }

  /** One cover step as a function: an uncovered `g` gets a connection from the first Group 1 member with room, if there is one. */
  function CoverStep(r: seq<Link>, g: int, g1: seq<int>): seq<Link>
  {
    if Covered(r, g, g1) then r
    else
      match FirstWithRoom(g1, r)
      case None => r
      case Some(a) => r + [Link(a, g, DefaultWeight)]
  }

  /** Phase 4 as a function: the cover step for each Group 2 member in list order. */
  function Cover(ls: seq<Link>, g1: seq<int>, g2: seq<int>): seq<Link>
  {
    if g2 == [] then ls
    else CoverStep(Cover(ls, g1, g2[..|g2| - 1]), g2[|g2| - 1], g1)
  }

  /** One iteration of the cover step: link `g` from the first Group 1 member with room, unless `g` is already covered. */
  method CoverMember(r: seq<Link>, g: int, g1: seq<int>) returns (r': seq<Link>)
    ensures r' == CoverStep(r, g, g1)
    ensures r' == r || (
      && |r'| == |r| + 1 && r'[..|r|] == r
      && r'[|r|] == Link(r'[|r|].source, g, DefaultWeight)
      && FirstWithRoom(g1, r) == Some(r'[|r|].source)
      && r'[|r|].source in g1 && OutDegree(r, r'[|r|].source) < ConnectionsPerGroup1
      && !Covered(r, g, g1))
    ensures Covered(r', g, g1) || Group1Full(r', g1)
    ensures Covered(r, g, g1) ==> r' == r
  {
    r' := r;
    if !Covered(r, g, g1) {
      var a := FirstWithRoom(g1, r);
      if a.Some? {
        var l := Link(a.value, g, DefaultWeight);
        r' := r + [l];
        assert r'[..|r|] == r;
        assert l in r';
      }
    }
  }

  /** What one cover step keeps of the loop's facts. */
  lemma {:induction false} CoverStepDegrees(ls: seq<Link>, r: seq<Link>, r': seq<Link>, g1: seq<int>)
    requires |r| >= |ls| && r[..|ls|] == ls
    requires forall a | a in g1 :: OutDegree(r, a) <= Max(ConnectionsPerGroup1, OutDegree(ls, a))
    requires forall a | a in g1 :: OutDegree(ls, a) >= ConnectionsPerGroup1 ==> OutDegree(r, a) == OutDegree(ls, a)
    requires r' == r || (
      && |r'| == |r| + 1 && r'[..|r|] == r
      && r'[|r|].source in g1 && OutDegree(r, r'[|r|].source) < ConnectionsPerGroup1)
    ensures forall a | a in g1 :: OutDegree(r', a) <= Max(ConnectionsPerGroup1, OutDegree(ls, a))
    ensures forall a | a in g1 :: OutDegree(ls, a) >= ConnectionsPerGroup1 ==> OutDegree(r', a) == OutDegree(ls, a)
    ensures forall a :: OutDegree(r', a) >= OutDegree(r, a)
  {
    if r' != r {
      assert r' == r + [r'[|r|]];
      forall b ensures OutDegree(r', b) == OutDegree(r, b) + (if b == r'[|r|].source then 1 else 0) {
        OutDegreeAppend(r, r'[|r|], b);
      }
    }
  }

  /** What one cover step keeps of the loop's facts about the appended connections. */
  lemma {:induction false} CoverStepLinks(ls: seq<Link>, r: seq<Link>, r': seq<Link>, g1: seq<int>, g2: seq<int>, i: nat)
    requires i < |g2| && Distinct(g2)
    requires |r| >= |ls| && r[..|ls|] == ls
    requires forall k | |ls| <= k < |r| ::
      r[k].source in g1 && r[k].target in g2[..i] && r[k].weight == DefaultWeight && !Covered(ls, r[k].target, g1)
    requires NoNewDuplicates(r, |ls|)
    requires forall g | g in g2[..i] :: Covered(r, g, g1) || Group1Full(r, g1)
    requires forall a :: OutDegree(r', a) >= OutDegree(r, a)
    requires r' == r || (
      && |r'| == |r| + 1 && r'[..|r|] == r
      && r'[|r|] == Link(r'[|r|].source, g2[i], DefaultWeight)
      && r'[|r|].source in g1 && !Covered(r, g2[i], g1))
    requires Covered(r', g2[i], g1) || Group1Full(r', g1)
    ensures |r'| >= |ls| && r'[..|ls|] == ls
    ensures forall k | |ls| <= k < |r'| ::
      r'[k].source in g1 && r'[k].target in g2[..i + 1] && r'[k].weight == DefaultWeight && !Covered(ls, r'[k].target, g1)
    ensures NoNewDuplicates(r', |ls|)
    ensures forall g | g in g2[..i + 1] :: Covered(r', g, g1) || Group1Full(r', g1)
  {
    var g := g2[i];
    assert g2[..i + 1] == g2[..i] + [g];
    if r' != r {
      var l := r'[|r|];
      assert l.weight == DefaultWeight && l.target == g && l.source in g1;
      PrefixTrans(ls, r, r');
      PrefixMembers(r, r');
      assert !HasLink(r'[..|r|], l.source, l.target);
      NoNewDuplicatesTrans(r, r', |ls|);
      assert !Covered(ls, g, g1) by {
        PrefixMembers(ls, r);
        forall x | x in ls ensures !(x.target == g && x.source in g1) {
          assert x in r;
        }
      }
      forall k | |ls| <= k < |r'| ensures
        r'[k].source in g1 && r'[k].target in g2[..i + 1] && r'[k].weight == DefaultWeight && !Covered(ls, r'[k].target, g1)
      {
        if k < |r| {
          assert r'[k] == r[k];
        } else {
          assert r'[k] == l;
        }
      }
    }
  }

  method CoverGroup2(ls: seq<Link>, g1: seq<int>, g2: seq<int>) returns (r: seq<Link>)
    requires Distinct(g2)
    ensures r == Cover(ls, g1, g2)
    ensures |r| >= |ls| && r[..|ls|] == ls
    ensures forall k | |ls| <= k < |r| ::
      r[k].source in g1 && r[k].target in g2 && r[k].weight == DefaultWeight && !Covered(ls, r[k].target, g1)
    ensures NoNewDuplicates(r, |ls|)
    ensures forall a | a in g1 :: OutDegree(r, a) <= Max(ConnectionsPerGroup1, OutDegree(ls, a))
    ensures forall a | a in g1 :: OutDegree(ls, a) >= ConnectionsPerGroup1 ==> OutDegree(r, a) == OutDegree(ls, a)
    ensures forall g | g in g2 :: Covered(r, g, g1) || Group1Full(r, g1)
    ensures (forall g | g in g2 :: Covered(ls, g, g1)) ==> r == ls
    ensures Group1Full(ls, g1) ==> r == ls
  {
    r := ls;
    for i := 0 to |g2|
      invariant r == Cover(ls, g1, g2[..i])
    {
      assert g2[..i + 1][..i] == g2[..i];
      r := CoverMember(r, g2[i], g1);
    }
    assert g2[..|g2|] == g2;
    CoverFacts(ls, g1, g2);
  }

  lemma {:induction false} DistinctInit(xs: seq<int>)
    requires Distinct(xs) && xs != []
    ensures Distinct(xs[..|xs| - 1])
  {
    var init := xs[..|xs| - 1];
    forall i, j | 0 <= i < j < |init| ensures init[i] != init[j] {
      assert init[i] == xs[i] && init[j] == xs[j];
    }
  }

  /**
   * What phase 4 guarantees: the list stays in front; only fresh
   * default-weight links from Group 1 to members that were uncovered are
   * appended; no member passes two unless it already had more; afterwards
   * every Group 2 member is covered unless Group 1 is full; nothing changes
   * when all are covered or Group 1 is full.
   */
  lemma {:induction false} CoverFacts(ls: seq<Link>, g1: seq<int>, g2: seq<int>)
    requires Distinct(g2)
    ensures var r := Cover(ls, g1, g2);
      && |r| >= |ls| && r[..|ls|] == ls
      && (forall k | |ls| <= k < |r| ::
            r[k].source in g1 && r[k].target in g2 && r[k].weight == DefaultWeight && !Covered(ls, r[k].target, g1))
      && NoNewDuplicates(r, |ls|)
      && (forall a | a in g1 :: OutDegree(r, a) <= Max(ConnectionsPerGroup1, OutDegree(ls, a)))
      && (forall a | a in g1 :: OutDegree(ls, a) >= ConnectionsPerGroup1 ==> OutDegree(r, a) == OutDegree(ls, a))
      && (forall g | g in g2 :: Covered(r, g, g1) || Group1Full(r, g1))
      && ((forall g | g in g2 :: Covered(ls, g, g1)) ==> r == ls)
      && (Group1Full(ls, g1) ==> r == ls)
  {
    if g2 == [] {
      assert ls[..|ls|] == ls;
    } else {
      var i := |g2| - 1;
      var init := g2[..i];
      var g := g2[i];
      DistinctInit(g2);
      assert g2 == init + [g];
      CoverFacts(ls, g1, init);
      var r0 := Cover(ls, g1, init);
      var r := CoverStep(r0, g, g1);
      assert Cover(ls, g1, g2) == r;
      if !Covered(r0, g, g1) && FirstWithRoom(g1, r0).Some? {
        assert r[..|r0|] == r0;
        assert r[|r0|] in r;
      }
      PrefixMembers(ls, r0);
      CoverStepDegrees(ls, r0, r, g1);
      assert g2[..i + 1] == g2;
      CoverStepLinks(ls, r0, r, g1, g2, i);
    }
  }

  // ---------------------------------------------------------------------
  // updateExistingConnections: the four phases in sequence

  lemma {:induction false} PrefixTrans(a: seq<Link>, b: seq<Link>, c: seq<Link>)
    requires |b| >= |a| && b[..|a|] == a
    requires |c| >= |b| && c[..|b|] == b
    ensures c[..|a|] == a
  {
    assert c[..|a|] == c[..|b|][..|a|];
  }

  /** The list the repair returns: the four phases in sequence. */
  function Repaired(ls: seq<Link>, g1: seq<int>, g2: seq<int>, f: int): seq<Link>
  {
    Cover(TopUp(FinalLinked(KeepAdmissible(ls, g1, g2, f), g2, f), g1, g2), g1, g2)
  }

  /**
   * The incremental repair: drop inadmissible connections, link Group 2 to
   * the final node, top up Group 1 to two outgoing connections and cover
   * every Group 2 member from Group 1. The admissible connections stay in
   * front with their weights; every new one has the default weight and a
   * pair not seen before; no Group 1 member is pushed past two; a list that
   * already satisfies the base conditions and has no inadmissible connection
   * comes back unchanged.
   */
  method UpdateExistingConnections(ls: seq<Link>, g1: seq<int>, g2: seq<int>, f: int) returns (r: seq<Link>)
    requires Groups(g1, g2, f)
    ensures r == Repaired(ls, g1, g2, f)
    ensures var kept := KeepAdmissible(ls, g1, g2, f);
      && |r| >= |kept| && r[..|kept|] == kept
      && NoNewDuplicates(r, |kept|)
      && (forall k | |kept| <= k < |r| :: r[k].weight == DefaultWeight)
      && (forall l | l in r :: Admissible(l, g1, g2, f))
      && (forall g | g in g2 :: HasLink(r, g, f))
      && (forall a | a in g1 :: OutDegree(r, a) <= Max(ConnectionsPerGroup1, OutDegree(kept, a)))
      && (forall a | a in g1 :: OutDegree(r, a) >= TopUpDegree(OutDegree(kept, a), |Unlinked(kept, a, g2)|))
      && (forall g | g in g2 :: Covered(r, g, g1) || Group1Full(r, g1))
    ensures CheckBaseConditions(ls, g1, g2, f) && (forall l | l in ls :: Admissible(l, g1, g2, f)) ==> r == ls
  {
    var kept := RemoveInvalidConnections(ls, g1, g2, f);
    var r1 := ConnectGroup2ToFinal(kept, g2, f);
    var r2 := TopUpGroup1(r1, g1, g2);
    r := CoverGroup2(r2, g1, g2);
    RepairedFacts(ls, g1, g2, f);
    if CheckBaseConditions(ls, g1, g2, f) && (forall l | l in ls :: Admissible(l, g1, g2, f)) {
      RepairedUnchanged(ls, g1, g2, f);
    }
  }

  /** What the four phases guarantee together, stated on `Repaired`. */
  lemma {:induction false} RepairedFacts(ls: seq<Link>, g1: seq<int>, g2: seq<int>, f: int)
    requires Groups(g1, g2, f)
    ensures var kept := KeepAdmissible(ls, g1, g2, f);
      var r := Repaired(ls, g1, g2, f);
      && |r| >= |kept| && r[..|kept|] == kept
      && NoNewDuplicates(r, |kept|)
      && (forall k | |kept| <= k < |r| :: r[k].weight == DefaultWeight)
      && (forall l | l in r :: Admissible(l, g1, g2, f))
      && (forall g | g in g2 :: HasLink(r, g, f))
      && (forall a | a in g1 :: OutDegree(r, a) <= Max(ConnectionsPerGroup1, OutDegree(kept, a)))
      && (forall a | a in g1 :: OutDegree(r, a) >= TopUpDegree(OutDegree(kept, a), |Unlinked(kept, a, g2)|))
      && (forall g | g in g2 :: Covered(r, g, g1) || Group1Full(r, g1))
  {
    var kept := KeepAdmissible(ls, g1, g2, f);
    var r1 := FinalLinked(kept, g2, f);
    var r2 := TopUp(r1, g1, g2);
    var r := Cover(r2, g1, g2);
    FinalLinkedFacts(kept, g2, f);
    TopUpFacts(r1, g1, g2);
    CoverFacts(r2, g1, g2);
    RepairLinks(ls, kept, r1, r2, r, g1, g2, f);
    RepairDegrees(kept, r1, r2, r, g1, g2);
  }

  /** A list that satisfies the base conditions and has no inadmissible connection is repaired to itself. */
  lemma {:induction false} RepairedUnchanged(ls: seq<Link>, g1: seq<int>, g2: seq<int>, f: int)
    requires Groups(g1, g2, f)
    requires CheckBaseConditions(ls, g1, g2, f)
    requires forall l | l in ls :: Admissible(l, g1, g2, f)
    ensures Repaired(ls, g1, g2, f) == ls
  {
    var kept := KeepAdmissible(ls, g1, g2, f);
    KeepAdmissibleAll(ls, g1, g2, f);
    FinalLinkedFacts(kept, g2, f);
    var r1 := FinalLinked(kept, g2, f);
    assert r1 == ls;
    assert forall a | a in g1 :: HasDegree(r1, a, ConnectionsPerGroup1);
    TopUpFacts(r1, g1, g2);
    assert TopUp(r1, g1, g2) == ls;
    CoverFacts(ls, g1, g2);
  }

  /** The repair's phases keep the admissible prefix and append admissible, fresh, default-weight connections. */
  lemma {:induction false} RepairLinks(ls: seq<Link>, kept: seq<Link>, r1: seq<Link>, r2: seq<Link>, r: seq<Link>,
                                       g1: seq<int>, g2: seq<int>, f: int)
    requires Groups(g1, g2, f)
    requires kept == KeepAdmissible(ls, g1, g2, f)
    requires |r1| >= |kept| && r1[..|kept|] == kept
    requires forall g | g in g2 :: HasLink(r1, g, f)
    requires forall k | |kept| <= k < |r1| ::
      r1[k].source in g2 && r1[k].target == f && r1[k].weight == DefaultWeight
    requires NoNewDuplicates(r1, |kept|)
    requires |r2| >= |r1| && r2[..|r1|] == r1
    requires forall k | |r1| <= k < |r2| :: r2[k].source in g1 && r2[k].target in g2 && r2[k].weight == DefaultWeight
    requires NoNewDuplicates(r2, |r1|)
    requires |r| >= |r2| && r[..|r2|] == r2
    requires forall k | |r2| <= k < |r| :: r[k].source in g1 && r[k].target in g2 && r[k].weight == DefaultWeight
    requires NoNewDuplicates(r, |r2|)
    ensures |r| >= |kept| && r[..|kept|] == kept
    ensures NoNewDuplicates(r, |kept|)
    ensures forall k | |kept| <= k < |r| :: r[k].weight == DefaultWeight
    ensures forall l | l in r :: Admissible(l, g1, g2, f)
    ensures forall g | g in g2 :: HasLink(r, g, f)
  {
    KeepAdmissibleMembers(ls, g1, g2, f);
    PrefixTrans(r1, r2, r);
    PrefixTrans(kept, r1, r2);
    PrefixTrans(kept, r1, r);
    NoNewDuplicatesTrans(r1, r2, |kept|);
    NoNewDuplicatesTrans(r2, r, |kept|);
    PrefixMembers(r1, r);
    forall k | 0 <= k < |r| ensures Admissible(r[k], g1, g2, f) && (k >= |kept| ==> r[k].weight == DefaultWeight) {
      if k < |kept| {
        assert r[k] == kept[k];
        assert kept[k] in kept;
      } else if k < |r1| {
        assert r[k] == r1[k];
      } else if k < |r2| {
        assert r[k] == r2[k];
      }
    }
  }

  /** The repair never pushes a Group 1 member past two outgoing connections, and tops it up as far as Group 2 allows. */
  lemma {:induction false} RepairDegrees(kept: seq<Link>, r1: seq<Link>, r2: seq<Link>, r: seq<Link>, g1: seq<int>, g2: seq<int>)
    requires forall a | a in g1 :: a !in g2
    requires |r1| >= |kept| && r1[..|kept|] == kept
    requires forall k | |kept| <= k < |r1| :: r1[k].source in g2
    requires forall a | a in g1 :: OutDegree(r2, a) == TopUpDegree(OutDegree(r1, a), |Unlinked(r1, a, g2)|)
    requires |r| >= |r2| && r[..|r2|] == r2
    requires forall a | a in g1 :: OutDegree(r, a) <= Max(ConnectionsPerGroup1, OutDegree(r2, a))
    ensures forall a | a in g1 :: OutDegree(r, a) <= Max(ConnectionsPerGroup1, OutDegree(kept, a))
    ensures forall a | a in g1 :: OutDegree(r, a) >= TopUpDegree(OutDegree(kept, a), |Unlinked(kept, a, g2)|)
  {
    forall a | a in g1
      ensures OutDegree(r, a) <= Max(ConnectionsPerGroup1, OutDegree(kept, a))
      ensures OutDegree(r, a) >= TopUpDegree(OutDegree(kept, a), |Unlinked(kept, a, g2)|)
    {
      OutDegreeOtherSources(kept, r1, a);
      forall g ensures HasLink(r1, a, g) == HasLink(kept, a, g) {
        HasLinkOtherSources(kept, r1, a, g);
      }
      UnlinkedSame(kept, r1, a, g2);
      OutDegreeMonotone(r2, r, a);
    }
  }

  // ---------------------------------------------------------------------
  // createAllConnections: the full regeneration

  /** Every draw of the random source lies in [0, 1), as `Math.random()` promises. */
  ghost predicate UnitDraws(random: nat -> real)
  {
    forall k: nat :: 0.0 <= random(k) < 1.0
  }

  /** The index `Math.floor(u * n)` that a draw `u` selects among `n` candidates. */
  function PickIndex(u: real, n: nat): (i: nat)
    requires 0.0 <= u < 1.0 && 0 < n
    ensures i < n
  {
    assert u * (n as real) < n as real by {
      assert (1.0 - u) * (n as real) > 0.0;
    }
    (u * (n as real)).Floor
  }

  /** The candidate list after `splice(i, 1)`. */
  function RemoveAt(xs: seq<int>, i: nat): (ys: seq<int>)
    requires i < |xs|
    ensures |ys| == |xs| - 1
  {
    xs[..i] + xs[i + 1..]
  }

  /** Splicing one element out leaves only the others; from a list of distinct ids, they stay distinct and it is gone. */
  lemma {:induction false} RemoveAtFacts(xs: seq<int>, i: nat)
    requires i < |xs|
    ensures forall y | y in RemoveAt(xs, i) :: y in xs
    ensures Distinct(xs) ==> Distinct(RemoveAt(xs, i)) && xs[i] !in RemoveAt(xs, i)
  {
    var ys := RemoveAt(xs, i);
    assert forall k | 0 <= k < |ys| :: ys[k] == if k < i then xs[k] else xs[k + 1];
  }

  /** The number of random targets each Group 1 member receives: two, or all of Group 2 if it is smaller. */
  function Draws(n: nat): nat
  {
    if n < ConnectionsPerGroup1 then n else ConnectionsPerGroup1
  }

  /**
   * The targets the draws `random(k)`, `random(k + 1)`, ... pick from `avail`:
   * up to `count` of them, each removed from the candidates once chosen.
   */
  function Picks(avail: seq<int>, random: nat -> real, k: nat, count: nat): (p: seq<int>)
    requires UnitDraws(random)
    ensures |p| == if count < |avail| then count else |avail|
  {
    if count == 0 || avail == [] then []
    else
      var i := PickIndex(random(k), |avail|);
      [avail[i]] + Picks(RemoveAt(avail, i), random, k + 1, count - 1)
  }

  /** The draws pick only available members, and from distinct candidates they pick distinct ones. */
  lemma {:induction false} PicksFacts(avail: seq<int>, random: nat -> real, k: nat, count: nat)
    requires UnitDraws(random)
    ensures forall x | x in Picks(avail, random, k, count) :: x in avail
    ensures Distinct(avail) ==> Distinct(Picks(avail, random, k, count))
  {
    if count > 0 && avail != [] {
      var i := PickIndex(random(k), |avail|);
      var rest := RemoveAt(avail, i);
      var q := Picks(rest, random, k + 1, count - 1);
      var p := Picks(avail, random, k, count);
      assert p == [avail[i]] + q;
      RemoveAtFacts(avail, i);
      PicksFacts(rest, random, k + 1, count - 1);
      if Distinct(avail) {
        forall m, n | 0 <= m < n < |p| ensures p[m] != p[n] {
          assert p[n] == q[n - 1];
          if m > 0 {
            assert p[m] == q[m - 1];
          } else {
            assert q[n - 1] in q;
          }
        }
      }
    }
  }

  /** The first draw picks one target; the rest come from the remaining candidates. */
  /** One draw of `ConnectMember`: the drawn target moves from the pending picks to the picked ones and gets its connection. */
  lemma {:induction false} ConnectStep(r: seq<Link>, r': seq<Link>, a: int, avail: seq<int>, picked: seq<int>,
                                       random: nat -> real, k: nat, count: nat)
    requires UnitDraws(random) && |avail| > 0 && count > 0
    requires r' == r + Fanout(a, picked)
    ensures var i := PickIndex(random(k), |avail|);
      && picked + Picks(avail, random, k, count)
         == (picked + [avail[i]]) + Picks(RemoveAt(avail, i), random, k + 1, count - 1)
      && r' + [Link(a, avail[i], DefaultWeight)] == r + Fanout(a, picked + [avail[i]])
  {
    var i := PickIndex(random(k), |avail|);
    var rest := Picks(RemoveAt(avail, i), random, k + 1, count - 1);
    assert Picks(avail, random, k, count) == [avail[i]] + rest;
    assert picked + ([avail[i]] + rest) == (picked + [avail[i]]) + rest;
    FanoutSnoc(a, picked, avail[i]);
  }

  /** No draws are made once the count is spent or the candidates run out. */
  lemma {:induction false} PicksNone(avail: seq<int>, random: nat -> real, k: nat, count: nat)
    requires UnitDraws(random) && (count == 0 || avail == [])
    ensures Picks(avail, random, k, count) == []
  {
  }

  /** Connections from `a` to each of `ts`, in order, with the default weight. */
  function Fanout(a: int, ts: seq<int>): seq<Link>
  {
    seq(|ts|, j requires 0 <= j < |ts| => Link(a, ts[j], DefaultWeight))
  }

  lemma {:induction false} FanoutSnoc(a: int, ts: seq<int>, t: int)
    ensures Fanout(a, ts + [t]) == Fanout(a, ts) + [Link(a, t, DefaultWeight)]
  {
    var l, r := Fanout(a, ts + [t]), Fanout(a, ts) + [Link(a, t, DefaultWeight)];
    assert |l| == |r|;
    forall j | 0 <= j < |l| ensures l[j] == r[j] {
      if j < |ts| {
        assert (ts + [t])[j] == ts[j];
      }
    }
  }

  /** One connection from each Group 2 member to the final node, in order, with the default weight. */
  function ToFinal(g2: seq<int>, f: int): seq<Link>
  {
    seq(|g2|, j requires 0 <= j < |g2| => Link(g2[j], f, DefaultWeight))
  }

  /** The random Group 1 connections: member `i` uses the draws from `i * Draws(|g2|)` on. */
  function Group1Links(g1: seq<int>, g2: seq<int>, random: nat -> real): seq<Link>
    requires UnitDraws(random)
  {
    if g1 == [] then []
    else
      var n := |g1| - 1;
      Group1Links(g1[..n], g2, random) + Fanout(g1[n], Picks(g2, random, n * Draws(|g2|), ConnectionsPerGroup1))
  }

  /** The list the regeneration returns. */
  function Regenerated(g1: seq<int>, g2: seq<int>, f: int, random: nat -> real): seq<Link>
    requires UnitDraws(random)
  {
    ToFinal(g2, f) + Group1Links(g1, g2, random)
  }

  lemma {:induction false} OutDegreeConcat(a: seq<Link>, b: seq<Link>, s: int)
    ensures OutDegree(a + b, s) == OutDegree(a, s) + OutDegree(b, s)
  {
    if b == [] {
      assert a + b == a;
    } else {
      var b' := b[..|b| - 1];
      OutDegreeConcat(a, b', s);
      assert (a + b)[..|a + b| - 1] == a + b';
      assert (a + b)[|a + b| - 1] == b[|b| - 1];
    }
  }

  lemma {:induction false} OutDegreeFanout(a: int, ts: seq<int>, s: int)
    ensures OutDegree(Fanout(a, ts), s) == if s == a then |ts| else 0
  {
    if ts != [] {
      var ts' := ts[..|ts| - 1];
      OutDegreeFanout(a, ts', s);
      assert Fanout(a, ts)[..|ts| - 1] == Fanout(a, ts');
    }
  }

  /** A participant with an outgoing connection is the source of one of the connections. */
  lemma {:induction false} OutDegreeWitness(ls: seq<Link>, s: int)
    requires OutDegree(ls, s) > 0
    ensures exists l | l in ls :: l.source == s
  {
    var last := ls[|ls| - 1];
    if last.source == s {
      assert last in ls;
    } else {
      var init := ls[..|ls| - 1];
      OutDegreeWitness(init, s);
      var l :| l in init && l.source == s;
      assert l in ls;
    }
  }

  /** Appending the fan-out of a fresh Group 1 member keeps the shape of the random connections. */
  lemma {:induction false} FanoutStep(p: seq<Link>, b: int, ts: seq<int>, init: seq<int>, g2: seq<int>)
    requires b !in init && Distinct(ts) && forall t | t in ts :: t in g2
    requires forall k | 0 <= k < |p| :: p[k].source in init && p[k].target in g2 && p[k].weight == DefaultWeight
    requires NoNewDuplicates(p, 0)
    ensures var gl := p + Fanout(b, ts);
      forall k | 0 <= k < |gl| :: gl[k].source in init + [b] && gl[k].target in g2 && gl[k].weight == DefaultWeight
    ensures NoNewDuplicates(p + Fanout(b, ts), 0)
  {
    var gl := p + Fanout(b, ts);
    forall k | 0 <= k < |gl| ensures gl[k].source in init + [b] && gl[k].target in g2 && gl[k].weight == DefaultWeight {
      if k < |p| {
        assert gl[k] == p[k];
      } else {
        assert gl[k] == Link(b, ts[k - |p|], DefaultWeight);
        assert ts[k - |p|] in ts;
      }
    }
    forall k | 0 <= k < |gl| ensures !HasLink(gl[..k], gl[k].source, gl[k].target) {
      if k < |p| {
        assert gl[..k] == p[..k];
        assert gl[k] == p[k];
      } else {
        var j := k - |p|;
        assert gl[k] == Link(b, ts[j], DefaultWeight);
        forall m | 0 <= m < k ensures !(gl[..k][m].source == b && gl[..k][m].target == ts[j]) {
          if m < |p| {
            assert gl[..k][m] == p[m];
          } else {
            assert gl[..k][m] == Link(b, ts[m - |p|], DefaultWeight);
          }
        }
      }
    }
  }

  lemma MulSucc(n: nat, d: nat)
    ensures (n + 1) * d == n * d + d
  {
  }

  /** The shape of the random Group 1 connections. */
  lemma {:induction false} Group1LinksShape(g1: seq<int>, g2: seq<int>, random: nat -> real)
    requires Distinct(g1) && Distinct(g2) && UnitDraws(random)
    ensures |Group1Links(g1, g2, random)| == |g1| * Draws(|g2|)
    ensures var gl := Group1Links(g1, g2, random);
      forall k | 0 <= k < |gl| :: gl[k].source in g1 && gl[k].target in g2 && gl[k].weight == DefaultWeight
    ensures NoNewDuplicates(Group1Links(g1, g2, random), 0)
  {
    if g1 != [] {
      var n := |g1| - 1;
      var init := g1[..n];
      var ts := Picks(g2, random, n * Draws(|g2|), ConnectionsPerGroup1);
      assert g1 == init + [g1[n]];
      assert Distinct(init);
      Group1LinksShape(init, g2, random);
      assert |ts| == Draws(|g2|);
      PicksFacts(g2, random, n * Draws(|g2|), ConnectionsPerGroup1);
      MulSucc(n, Draws(|g2|));
      FanoutStep(Group1Links(init, g2, random), g1[n], ts, init, g2);
    }
  }

  /** Each Group 1 member receives `Draws(|g2|)` random connections and no other. */
  lemma {:induction false} Group1LinksDegrees(g1: seq<int>, g2: seq<int>, random: nat -> real)
    requires Distinct(g1) && Distinct(g2) && UnitDraws(random)
    ensures forall a | a in g1 :: OutDegree(Group1Links(g1, g2, random), a) == Draws(|g2|)
  {
    if g1 != [] {
      var n := |g1| - 1;
      var b := g1[n];
      var init := g1[..n];
      var p := Group1Links(init, g2, random);
      var ts := Picks(g2, random, n * Draws(|g2|), ConnectionsPerGroup1);
      assert Distinct(init);
      assert b !in init;
      Group1LinksDegrees(init, g2, random);
      Group1LinksShape(init, g2, random);
      assert g1 == init + [b];
      forall a | a in g1 ensures OutDegree(Group1Links(g1, g2, random), a) == Draws(|g2|) {
        FanoutDegree(p, b, ts, init, a, Draws(|g2|));
      }
    }
  }

  /** After the fan-out of a fresh member `b`, it and every earlier member have out-degree `d`. */
  lemma {:induction false} FanoutDegree(p: seq<Link>, b: int, ts: seq<int>, init: seq<int>, a: int, d: nat)
    requires forall x | x in init :: OutDegree(p, x) == d
    requires forall k | 0 <= k < |p| :: p[k].source in init
    requires b !in init && |ts| == d && (a in init || a == b)
    ensures OutDegree(p + Fanout(b, ts), a) == d
  {
    OutDegreeConcat(p, Fanout(b, ts), a);
    OutDegreeFanout(b, ts, a);
    if a == b {
      assert p[..0] == [];
      OutDegreeOtherSources([], p, b);
    }
  }

  /** The final-node connections and the random Group 1 connections never repeat a pair. */
  lemma {:induction false} RegeneratedNoDuplicates(tf: seq<Link>, gl: seq<Link>, g1: seq<int>, g2: seq<int>, f: int)
    requires Groups(g1, g2, f)
    requires tf == ToFinal(g2, f)
    requires forall k | 0 <= k < |gl| :: gl[k].source in g1 && gl[k].target in g2
    requires NoNewDuplicates(gl, 0)
    ensures NoNewDuplicates(tf + gl, 0)
  {
    var r := tf + gl;
    forall k | 0 <= k < |r| ensures !HasLink(r[..k], r[k].source, r[k].target) {
      if k < |tf| {
        forall m | 0 <= m < k ensures !(r[..k][m].source == r[k].source && r[..k][m].target == r[k].target) {
          assert r[..k][m] == tf[m] && r[k] == tf[k];
        }
      } else {
        var j := k - |tf|;
        assert r[k] == gl[j];
        assert gl[j].target in g2;
        assert !HasLink(gl[..j], gl[j].source, gl[j].target);
        forall m | 0 <= m < k ensures !(r[..k][m].source == r[k].source && r[..k][m].target == r[k].target) {
          if m < |tf| {
            assert r[..k][m] == tf[m];
          } else {
            assert r[..k][m] == gl[..j][m - |tf|];
            assert gl[..j][m - |tf|] in gl[..j];
          }
        }
      }
    }
  }

  /** When Group 1 is not full after the random phase, Group 2 has at most one member and it is already covered. */
  lemma {:induction false} RegeneratedCovered(r: seq<Link>, gl: seq<Link>, g1: seq<int>, g2: seq<int>)
    requires forall l | l in gl :: l in r
    requires forall k | 0 <= k < |gl| :: gl[k].target in g2
    requires forall a | a in g1 :: OutDegree(r, a) == Draws(|g2|) && OutDegree(gl, a) == Draws(|g2|)
    ensures Group1Full(r, g1) || forall g | g in g2 :: Covered(r, g, g1)
  {
    if !Group1Full(r, g1) {
      forall g | g in g2 ensures Covered(r, g, g1) {
        var a := g1[0];
        OutDegreeWitness(gl, a);
        var l :| l in gl && l.source == a;
        var k :| 0 <= k < |gl| && gl[k] == l;
        assert l.target in g2;
        assert g2[0] in g2;
        assert l in r;
      }
    }
  }

  /**
   * What the regeneration promises: exactly one connection from each Group 2
   * member to the final node, in Group 2 order, followed by `min(2, |g2|)`
   * distinct Group 2 targets for each Group 1 member; every connection has
   * the default weight, no pair occurs twice, and either Group 1 is full or
   * every Group 2 member is covered from Group 1.
   */
  lemma {:induction false} RegeneratedShape(g1: seq<int>, g2: seq<int>, f: int, random: nat -> real)
    requires Groups(g1, g2, f) && UnitDraws(random)
    ensures var r := Regenerated(g1, g2, f, random);
      && |r| == |g2| + |g1| * Draws(|g2|)
      && (forall i | 0 <= i < |g2| :: r[i] == Link(g2[i], f, DefaultWeight))
      && (forall k | |g2| <= k < |r| :: r[k].source in g1 && r[k].target in g2 && r[k].weight == DefaultWeight)
      && NoNewDuplicates(r, 0)
      && (forall g | g in g2 :: HasLink(r, g, f))
      && (forall a | a in g1 :: OutDegree(r, a) == Draws(|g2|))
      && (Group1Full(r, g1) || forall g | g in g2 :: Covered(r, g, g1))
  {
    var tf := ToFinal(g2, f);
    var gl := Group1Links(g1, g2, random);
    var r := tf + gl;
    assert r == Regenerated(g1, g2, f, random);
    Group1LinksShape(g1, g2, random);
    Group1LinksDegrees(g1, g2, random);
    RegeneratedNoDuplicates(tf, gl, g1, g2, f);
    forall k | |g2| <= k < |r| ensures r[k].source in g1 && r[k].target in g2 && r[k].weight == DefaultWeight {
      assert r[k] == gl[k - |g2|];
    }
    forall g | g in g2 ensures HasLink(r, g, f) {
      var i :| 0 <= i < |g2| && g2[i] == g;
      assert r[i] == Link(g, f, DefaultWeight);
      assert r[i] in r;
    }
    forall a | a in g1 ensures OutDegree(r, a) == Draws(|g2|) {
      OutDegreeConcat(tf, gl, a);
      assert tf[..0] == [];
      OutDegreeOtherSources([], tf, a);
    }
    RegeneratedCovered(r, gl, g1, g2);
  }

  /** One iteration of the regeneration's Group 1 loop: up to two random, distinct Group 2 targets for `a`. */
  method ConnectMember(r: seq<Link>, a: int, g2: seq<int>, random: nat -> real, k: nat) returns (r': seq<Link>, k': nat)
    requires UnitDraws(random)
    ensures r' == r + Fanout(a, Picks(g2, random, k, ConnectionsPerGroup1))
    ensures k' == k + Draws(|g2|)
  {
    var avail := g2;
    var picked: seq<int> := [];
    var j := k;
    r' := r;
    for i := 0 to ConnectionsPerGroup1
      invariant j == k + |picked|
      invariant picked + Picks(avail, random, j, ConnectionsPerGroup1 - i) == Picks(g2, random, k, ConnectionsPerGroup1)
      invariant r' == r + Fanout(a, picked)
    {
      if |avail| > 0 {
        var idx := PickIndex(random(j), |avail|);
        var target := avail[idx];
        var rest := RemoveAt(avail, idx);
        ConnectStep(r, r', a, avail, picked, random, j, ConnectionsPerGroup1 - i);
        avail := rest;
        r' := r' + [Link(a, target, DefaultWeight)];
        picked := picked + [target];
        j := j + 1;
      } else {
        PicksNone(avail, random, j, ConnectionsPerGroup1 - i);
        PicksNone(avail, random, j, ConnectionsPerGroup1 - i - 1);
      }
    }
    PicksNone(avail, random, j, 0);
    k' := k + |picked|;
  }

  /** The regeneration's first loop: link every Group 2 member to the final node. */
  method LinkAllToFinal(g2: seq<int>, f: int) returns (r: seq<Link>)
    ensures r == ToFinal(g2, f)
  {
    r := [];
    for i := 0 to |g2|
      invariant r == ToFinal(g2[..i], f)
    {
      assert ToFinal(g2[..i + 1], f) == ToFinal(g2[..i], f) + [Link(g2[i], f, DefaultWeight)];
      r := r + [Link(g2[i], f, DefaultWeight)];
    }
    assert g2[..|g2|] == g2;
  }

  lemma {:induction false} Group1LinksSnoc(g1: seq<int>, g2: seq<int>, random: nat -> real, i: nat)
    requires UnitDraws(random) && i < |g1|
    ensures Group1Links(g1[..i + 1], g2, random)
         == Group1Links(g1[..i], g2, random) + Fanout(g1[i], Picks(g2, random, i * Draws(|g2|), ConnectionsPerGroup1))
  {
    assert g1[..i + 1][..i] == g1[..i];
  }

  /** The regeneration's second loop: random Group 2 targets for every Group 1 member. */
  method ConnectGroup1Randomly(r0: seq<Link>, g1: seq<int>, g2: seq<int>, random: nat -> real) returns (r: seq<Link>)
    requires UnitDraws(random)
    ensures r == r0 + Group1Links(g1, g2, random)
  {
    r := r0;
    var k := 0;
    ghost var d := Draws(|g2|);
    for i := 0 to |g1|
      invariant r == r0 + Group1Links(g1[..i], g2, random)
      invariant k == i * d
    {
      Group1LinksSnoc(g1, g2, random, i);
      ghost var r' := r + Fanout(g1[i], Picks(g2, random, k, ConnectionsPerGroup1));
      assert r' == r0 + Group1Links(g1[..i + 1], g2, random);
      r, k := ConnectMember(r, g1[i], g2, random, k);
      assert r == r';
      assert k == (i + 1) * d;
    }
    assert g1[..|g1|] == g1;
  }

  /**
   * The regeneration: Group 2 to the final node, random Group 1 targets, and
   * the same cover step as the repair (which finds nothing left to do).
   */
  method CreateAllConnections(g1: seq<int>, g2: seq<int>, f: int, random: nat -> real) returns (r: seq<Link>)
    requires Groups(g1, g2, f) && UnitDraws(random)
    ensures r == Regenerated(g1, g2, f, random)
  {
    var tf := LinkAllToFinal(g2, f);
    r := ConnectGroup1Randomly(tf, g1, g2, random);
    RegeneratedShape(g1, g2, f, random);
    ghost var before := r;
    r := CoverGroup2(r, g1, g2);
    assert r == before;
  }
}
