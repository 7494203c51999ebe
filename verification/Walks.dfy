/** Walks in finite directed graphs: reachability, closed sets, pigeonhole on
    acyclic graphs, and the state a worklist search keeps. */
module Walks {
  import opened Enumeration

  type Edges<T(==)> = set<(T, T)>

  ghost predicate Link<T>(e: Edges<T>, p: seq<T>, i: nat)
    requires i + 1 < |p|
  {
    (p[i], p[i + 1]) in e
  }

  /** A non-empty node sequence that follows edges; one node is a walk of length zero. */
  ghost predicate Walk<T>(e: Edges<T>, p: seq<T>) {
    |p| > 0 && forall i: nat | i + 1 < |p| :: Link(e, p, i)
  }

  ghost predicate WalkBetween<T>(e: Edges<T>, p: seq<T>, a: T, b: T) {
    Walk(e, p) && p[0] == a && p[|p| - 1] == b
  }

  /** Reflexive-transitive reachability. */
  ghost predicate Reaches<T(!new)>(e: Edges<T>, a: T, b: T) {
    exists p: seq<T> :: WalkBetween(e, p, a, b)
  }

  /** Reachability by at least one edge. */
  ghost predicate ReachesPlus<T(!new)>(e: Edges<T>, a: T, b: T) {
    exists p: seq<T> :: WalkBetween(e, p, a, b) && |p| >= 2
  }

  ghost predicate OnCycle<T(!new)>(e: Edges<T>, a: T) {
    ReachesPlus(e, a, a)
  }

  function Succ<T>(e: Edges<T>, a: T): set<T> {
    set x | x in e && x.0 == a :: x.1
  }

  lemma SuccMember<T>(e: Edges<T>, a: T, b: T)
    ensures b in Succ(e, a) <==> (a, b) in e
  {
  }

  lemma ReachesSelf<T(!new)>(e: Edges<T>, a: T)
    ensures Reaches(e, a, a)
  {
    assert WalkBetween(e, [a], a, a);
  }

  lemma JoinWalks<T>(e: Edges<T>, p: seq<T>, q: seq<T>)
    requires Walk(e, p) && Walk(e, q) && p[|p| - 1] == q[0]
    ensures Walk(e, p + q[1..])
  {
    var r := p + q[1..];
    forall i: nat | i + 1 < |r|
      ensures Link(e, r, i)
    {
      if i + 1 < |p| {
        assert Link(e, p, i);
      } else {
        assert Link(e, q, i + 1 - |p|);
      }
    }
  }

  lemma SliceWalk<T>(e: Edges<T>, p: seq<T>, i: nat, j: nat)
    requires Walk(e, p) && i < j <= |p|
    ensures Walk(e, p[i..j])
  {
    forall k: nat | k + 1 < |p[i..j]|
      ensures Link(e, p[i..j], k)
    {
      assert Link(e, p, i + k);
    }
  }

  lemma ReachesTransitive<T(!new)>(e: Edges<T>, a: T, b: T, c: T)
    requires Reaches(e, a, b) && Reaches(e, b, c)
    ensures Reaches(e, a, c)
  {
    var p :| WalkBetween(e, p, a, b);
    var q :| WalkBetween(e, q, b, c);
    JoinWalks(e, p, q);
    assert WalkBetween(e, p + q[1..], a, c);
  }

  lemma EdgeReaches<T(!new)>(e: Edges<T>, a: T, b: T)
    requires (a, b) in e
    ensures Reaches(e, a, b) && ReachesPlus(e, a, b)
  {
    var p := [a, b];
    assert Link(e, p, 0);
    assert WalkBetween(e, p, a, b);
  }

  lemma ReachesEdge<T(!new)>(e: Edges<T>, a: T, b: T, c: T)
    requires Reaches(e, a, b) && (b, c) in e
    ensures Reaches(e, a, c)
  {
    EdgeReaches(e, b, c);
    ReachesTransitive(e, a, b, c);
  }

  lemma PlusIsEdgeThenReaches<T(!new)>(e: Edges<T>, a: T, b: T)
    ensures ReachesPlus(e, a, b) <==> exists c :: c in Succ(e, a) && Reaches(e, c, b)
  {
    if ReachesPlus(e, a, b) {
      var p :| WalkBetween(e, p, a, b) && |p| >= 2;
      assert Link(e, p, 0);
      SuccMember(e, a, p[1]);
      SliceWalk(e, p, 1, |p|);
      assert WalkBetween(e, p[1..|p|], p[1], b);
    }
    forall c | c in Succ(e, a) && Reaches(e, c, b)
      ensures ReachesPlus(e, a, b)
    {
      SuccMember(e, a, c);
      var q :| WalkBetween(e, q, c, b);
      assert Link(e, [a, c], 0);
      assert Walk(e, [a, c]);
      JoinWalks(e, [a, c], q);
      assert WalkBetween(e, [a, c] + q[1..], a, b);
    }
  }

  lemma ReachesMonotone<T(!new)>(e: Edges<T>, f: Edges<T>, a: T, b: T)
    requires e <= f && Reaches(e, a, b)
    ensures Reaches(f, a, b)
  {
    var p :| WalkBetween(e, p, a, b);
    forall i: nat | i + 1 < |p|
      ensures Link(f, p, i)
    {
      assert Link(e, p, i);
    }
    assert WalkBetween(f, p, a, b);
  }

  ghost predicate Closed<T>(e: Edges<T>, s: set<T>) {
    forall x | x in e && x.0 in s :: x.1 in s
  }

  lemma {:induction false} ClosedKeepsWalk<T>(e: Edges<T>, s: set<T>, p: seq<T>)
    requires Closed(e, s) && Walk(e, p) && p[0] in s
    ensures p[|p| - 1] in s
    decreases |p|
  {
    if |p| > 1 {
      assert Link(e, p, 0);
      assert (p[0], p[1]).1 in s;
      SliceWalk(e, p, 1, |p|);
      ClosedKeepsWalk(e, s, p[1..|p|]);
    }
  }

  // ----- the state of a worklist search

  ghost predicate ReachedFrom<T(!new)>(e: Edges<T>, roots: set<T>, x: T) {
    exists r :: r in roots && Reaches(e, r, x)
  }

  /** What every worklist loop keeps: nothing but reachable nodes is held, every root
      is held, and the successors of a processed node are held. */
  ghost predicate Frontier<T(!new)>(e: Edges<T>, roots: set<T>, seen: set<T>, pending: seq<T>) {
    && (forall x | x in seen || x in pending :: ReachedFrom(e, roots, x))
    && (forall x | x in roots :: x in seen || x in pending)
    && (forall x | x in e && x.0 in seen :: x.1 in seen || x.1 in pending)
  }

  lemma FrontierStart<T(!new)>(e: Edges<T>, roots: set<T>, pending: seq<T>)
    requires Elements(pending) == roots
    ensures Frontier(e, roots, {}, pending)
  {
    forall x | x in pending
      ensures ReachedFrom(e, roots, x)
    {
      assert x in Elements(pending);
      ReachesSelf(e, x);
    }
  }

  /** Popping a node that was seen before. */
  lemma FrontierSkip<T(!new)>(e: Edges<T>, roots: set<T>, seen: set<T>, pending: seq<T>)
    requires Frontier(e, roots, seen, pending)
    requires |pending| > 0 && pending[|pending| - 1] in seen
    ensures Frontier(e, roots, seen, pending[..|pending| - 1])
  {
  }

  /** Popping a new node and pushing its successors, in any order, with or without the
      ones already seen. */
  lemma FrontierExpand<T(!new)>(e: Edges<T>, roots: set<T>, seen: set<T>, pending: seq<T>, pushed: seq<T>)
    requires Frontier(e, roots, seen, pending) && |pending| > 0
    requires Elements(pushed) <= Succ(e, pending[|pending| - 1])
    requires Succ(e, pending[|pending| - 1]) <= Elements(pushed) + seen + {pending[|pending| - 1]}
    ensures Frontier(e, roots, seen + {pending[|pending| - 1]}, pending[..|pending| - 1] + pushed)
  {
    var current := pending[|pending| - 1];
    assert pending == pending[..|pending| - 1] + [current];
    forall x | x in pushed
      ensures ReachedFrom(e, roots, x)
    {
      assert x in Elements(pushed);
      SuccMember(e, current, x);
      var r :| r in roots && Reaches(e, r, current);
      ReachesEdge(e, r, current, x);
    }
    forall x | x in e && x.0 == current
      ensures x.1 in Succ(e, current)
    {
      SuccMember(e, current, x.1);
    }
  }

  /** An exhausted search has seen exactly the reachable nodes. */
  lemma FrontierDone<T(!new)>(e: Edges<T>, roots: set<T>, seen: set<T>)
    requires Frontier(e, roots, seen, [])
    ensures forall x :: x in seen <==> ReachedFrom(e, roots, x)
  {
    forall x | ReachedFrom(e, roots, x)
      ensures x in seen
    {
      var r :| r in roots && Reaches(e, r, x);
      var p :| WalkBetween(e, p, r, x);
      ClosedKeepsWalk(e, seen, p);
    }
  }

  /** Every node a search can hold. */
  ghost function Nodes<T>(e: Edges<T>, roots: set<T>): set<T> {
    roots + (set x | x in e :: x.1)
  }

  lemma FrontierWithinNodes<T(!new)>(e: Edges<T>, roots: set<T>, seen: set<T>, pending: seq<T>)
    requires Frontier(e, roots, seen, pending)
    ensures seen <= Nodes(e, roots)
    ensures Elements(pending) <= Nodes(e, roots)
  {
    assert forall x | x in e && x.0 in Nodes(e, roots) :: x.1 in Nodes(e, roots);
    forall x | ReachedFrom(e, roots, x)
      ensures x in Nodes(e, roots)
    {
      var r :| r in roots && Reaches(e, r, x);
      var p :| WalkBetween(e, p, r, x);
      ClosedKeepsWalk(e, Nodes(e, roots), p);
    }
  }

  // ----- finite acyclic graphs

  lemma {:induction false} DistinctFits<T>(p: seq<T>, s: set<T>)
    requires NoDuplicates(p) && Elements(p) <= s
    ensures |p| <= |s|
    decreases |p|
  {
    if |p| > 0 {
      var x := p[|p| - 1];
      var q := p[..|p| - 1];
      assert p == q + [x];
      assert x in s;
      assert Elements(q) <= s - {x};
      DistinctFits(q, s - {x});
    }
  }

  /** A walk that visits a node twice contains a cycle through it. */
  lemma RepeatIsCycle<T(!new)>(e: Edges<T>, p: seq<T>, i: nat, j: nat)
    requires Walk(e, p) && i < j < |p| && p[i] == p[j]
    ensures OnCycle(e, p[i])
  {
    SliceWalk(e, p, i, j + 1);
    assert WalkBetween(e, p[i..j + 1], p[i], p[i]);
  }

  /** Pigeonhole: a walk that stays in `s` without cycling is no longer than `s`. */
  lemma AcyclicWalkFits<T(!new)>(e: Edges<T>, p: seq<T>, s: set<T>)
    requires Walk(e, p) && Elements(p) <= s
    requires forall x | x in s :: !OnCycle(e, x)
    ensures |p| <= |s|
  {
    forall i, j | 0 <= i < j < |p|
      ensures p[i] != p[j]
    {
      assert p[i] in Elements(p);
      if p[i] == p[j] {
        RepeatIsCycle(e, p, i, j);
        assert false;
      }
    }
    DistinctFits(p, s);
  }
}
