/** Equivalence components: `equivalent_connected` of the OWL consistency gate. */
module Equivalence {
  import opened Rdf
  import opened Enumeration
  import opened Walks

  const OWL_EQUIVALENT_CLASS := IRI(OWL_NS + "equivalentClass")
  const OWL_EQUIVALENT_PROPERTY := IRI(OWL_NS + "equivalentProperty")
  const OWL_SAME_AS := IRI(OWL_NS + "sameAs")

  /** The predicate's pairs, read in both directions. */
  ghost function SymmetricEdges(g: Graph, p: Term): Edges<Term> {
    (set t | t in g && t.p == p :: (t.s, t.o)) + (set t | t in g && t.p == p :: (t.o, t.s))
  }

  lemma SymmetricEdgesMember(g: Graph, p: Term, a: Term, b: Term)
    ensures (a, b) in SymmetricEdges(g, p) <==> Triple(a, p, b) in g || Triple(b, p, a) in g
  {
  }

  ghost predicate Equivalent(g: Graph, p: Term, left: Term, right: Term) {
    Reaches(SymmetricEdges(g, p), left, right)
  }

  lemma AdjacentIsSucc(g: Graph, p: Term, a: Term)
    ensures Objects(g, a, p) + Subjects(g, p, a) == Succ(SymmetricEdges(g, p), a)
  {
    forall b
      ensures b in Objects(g, a, p) + Subjects(g, p, a) <==> b in Succ(SymmetricEdges(g, p), a)
    {
      ObjectsMember(g, a, p, b);
      SubjectsMember(g, p, a, b);
      SymmetricEdgesMember(g, p, a, b);
      SuccMember(SymmetricEdges(g, p), a, b);
    }
  }

  method EquivalentConnected(g: Graph, left: Term, right: Term, p: Term) returns (connected: bool)
    ensures connected <==> Equivalent(g, p, left, right)
  {
    ghost var e := SymmetricEdges(g, p);
    if left == right {
      ReachesSelf(e, left);
      return true;
    }
    var pending := [left];
    var seen: set<Term> := {};
    FrontierStart(e, {left}, pending);
    while pending != []
      invariant Frontier(e, {left}, seen, pending)
      invariant right !in seen && right !in pending
      decreases Nodes(e, {left}) - seen, |pending|
    {
      var current := pending[|pending| - 1];
      FrontierWithinNodes(e, {left}, seen, pending);
      assert current in Elements(pending);
      if current in seen {
        FrontierSkip(e, {left}, seen, pending);
        pending := pending[..|pending| - 1];
        continue;
      }
      ghost var before := seen;
      seen := seen + {current};
      var adjacent := Objects(g, current, p) + Subjects(g, p, current);
      AdjacentIsSucc(g, p, current);
      if right in adjacent {
        SuccMember(e, current, right);
        ReachesEdge(e, left, current, right);
        return true;
      }
      var pushed := Enumerate(adjacent - seen);
      FrontierExpand(e, {left}, before, pending, pushed);
      assert right !in Elements(pushed);
      pending := pending[..|pending| - 1] + pushed;
    }
    FrontierDone(e, {left}, seen);
    return false;
  }

  // ----- what being connected means

  ghost predicate IsEquivalenceOver(r: (Term, Term) -> bool, g: Graph, p: Term) {
    && (forall a :: r(a, a))
    && (forall a, b | r(a, b) :: r(b, a))
    && (forall a, b, c | r(a, b) && r(b, c) :: r(a, c))
    && (forall t | t in g && t.p == p :: r(t.s, t.o))
  }

  lemma {:induction false} WalkRelates(r: (Term, Term) -> bool, g: Graph, p: Term, w: seq<Term>)
    requires IsEquivalenceOver(r, g, p) && Walk(SymmetricEdges(g, p), w)
    ensures r(w[0], w[|w| - 1])
    decreases |w|
  {
    if |w| > 1 {
      assert Link(SymmetricEdges(g, p), w, 0);
      SymmetricEdgesMember(g, p, w[0], w[1]);
      var forth, back := Triple(w[0], p, w[1]), Triple(w[1], p, w[0]);
      assert r(w[0], w[1]) by {
        if forth in g {
          assert r(forth.s, forth.o);
        } else {
          assert r(back.s, back.o);
        }
      }
      SliceWalk(SymmetricEdges(g, p), w, 1, |w|);
      WalkRelates(r, g, p, w[1..|w|]);
    }
  }

  lemma Symmetric(g: Graph, p: Term, a: Term, b: Term)
    requires Equivalent(g, p, a, b)
    ensures Equivalent(g, p, b, a)
  {
    var e := SymmetricEdges(g, p);
    var w :| WalkBetween(e, w, a, b);
    var v := seq(|w|, i requires 0 <= i < |w| => w[|w| - 1 - i]);
    forall i: nat | i + 1 < |v|
      ensures Link(e, v, i)
    {
      assert Link(e, w, |w| - 2 - i);
      SymmetricEdgesMember(g, p, v[i], v[i + 1]);
      SymmetricEdgesMember(g, p, v[i + 1], v[i]);
    }
    assert WalkBetween(e, v, b, a);
  }

  /** Connectedness is itself an equivalence relation that holds of the predicate's pairs. */
  lemma EquivalentIsEquivalence(g: Graph, p: Term)
    ensures IsEquivalenceOver((a, b) => Equivalent(g, p, a, b), g, p)
  {
    var r := (a, b) => Equivalent(g, p, a, b);
    forall a
      ensures r(a, a)
    {
      ReachesSelf(SymmetricEdges(g, p), a);
    }
    forall a, b | r(a, b)
      ensures r(b, a)
    {
      Symmetric(g, p, a, b);
    }
    forall a, b, c | r(a, b) && r(b, c)
      ensures r(a, c)
    {
      ReachesTransitive(SymmetricEdges(g, p), a, b, c);
    }
    forall t | t in g && t.p == p
      ensures r(t.s, t.o)
    {
      SymmetricEdgesMember(g, p, t.s, t.o);
      EdgeReaches(SymmetricEdges(g, p), t.s, t.o);
    }
  }

  /** Two terms are connected exactly when every equivalence relation that holds of the
      predicate's pairs relates them: connectedness is the smallest such relation. */
  lemma SmallestEquivalence(g: Graph, p: Term, left: Term, right: Term)
    ensures Equivalent(g, p, left, right)
       <==> forall r: (Term, Term) -> bool | IsEquivalenceOver(r, g, p) :: r(left, right)
  {
    var e := SymmetricEdges(g, p);
    if Equivalent(g, p, left, right) {
      var w :| WalkBetween(e, w, left, right);
      forall r: (Term, Term) -> bool | IsEquivalenceOver(r, g, p)
        ensures r(left, right)
      {
        WalkRelates(r, g, p, w);
      }
    }
    if forall r: (Term, Term) -> bool | IsEquivalenceOver(r, g, p) :: r(left, right) {
      EquivalentIsEquivalence(g, p);
      var r := (a, b) => Equivalent(g, p, a, b);
      assert r(left, right);
    }
  }
}
