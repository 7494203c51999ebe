/** Blank nodes under other labels: a graph says the same, and so does everything read from it. */
module Relabelling {
  import opened Rdf
  import opened Enumeration
  import opened Walks
  import opened ShapeRequirements

  /** New labels for blank nodes. */
  type Labels = string -> string

  /** Different blank nodes keep different labels. */
  ghost predicate OneToOne(r: Labels) {
    forall a, b | r(a) == r(b) :: a == b
  }

  function Renamed(r: Labels, t: Term): Term {
    if t.BNode? then BNode(r(t.id)) else t
  }

  function RenamedTerms(r: Labels, terms: set<Term>): set<Term> {
    set t | t in terms :: Renamed(r, t)
  }

  function RenamedTriple(r: Labels, t: Triple): Triple {
    Triple(Renamed(r, t.s), Renamed(r, t.p), Renamed(r, t.o))
  }

  function RenamedGraph(r: Labels, g: Graph): Graph {
    set t | t in g :: RenamedTriple(r, t)
  }

  function RenamedGraphs(r: Labels, gs: seq<Graph>): seq<Graph> {
    seq(|gs|, i requires 0 <= i < |gs| => RenamedGraph(r, gs[i]))
  }

  lemma RenamedApart(r: Labels)
    requires OneToOne(r)
    ensures forall a, b | Renamed(r, a) == Renamed(r, b) :: a == b
  {
  }

  lemma RenamedMember(r: Labels, terms: set<Term>, t: Term)
    requires OneToOne(r)
    ensures Renamed(r, t) in RenamedTerms(r, terms) <==> t in terms
  {
    RenamedApart(r);
  }

  lemma {:induction false} RenamedSize(r: Labels, terms: set<Term>)
    requires OneToOne(r)
    ensures |RenamedTerms(r, terms)| == |terms|
    decreases terms
  {
    if t :| t in terms {
      RenamedSize(r, terms - {t});
      RenamedMember(r, terms - {t}, t);
      assert RenamedTerms(r, terms) == RenamedTerms(r, terms - {t}) + {Renamed(r, t)};
    }
  }

  lemma RenamedUnion(r: Labels, a: set<Term>, b: set<Term>)
    ensures RenamedTerms(r, a + b) == RenamedTerms(r, a) + RenamedTerms(r, b)
  {
  }

  lemma RenamedOne(r: Labels, t: Term)
    ensures RenamedTerms(r, {t}) == {Renamed(r, t)}
  {
  }

  lemma RenamedWith(r: Labels, seen: set<Term>, term: Term)
    ensures RenamedTerms(r, seen + {term}) == RenamedTerms(r, seen) + {Renamed(r, term)}
  {
    RenamedUnion(r, seen, {term});
    RenamedOne(r, term);
  }

  // ----- objects

  lemma RenamedObjects(r: Labels, g: Graph, s: Term, p: Term)
    requires OneToOne(r) && !p.BNode?
    ensures Objects(RenamedGraph(r, g), Renamed(r, s), p) == RenamedTerms(r, Objects(g, s, p))
  {
    RenamedApart(r);
    forall o | o in Objects(g, s, p)
      ensures Renamed(r, o) in Objects(RenamedGraph(r, g), Renamed(r, s), p)
    {
      ObjectsMember(g, s, p, o);
      assert RenamedTriple(r, Triple(s, p, o)) in RenamedGraph(r, g);
      ObjectsMember(RenamedGraph(r, g), Renamed(r, s), p, Renamed(r, o));
    }
    forall o | o in Objects(RenamedGraph(r, g), Renamed(r, s), p)
      ensures o in RenamedTerms(r, Objects(g, s, p))
    {
      ObjectsMember(RenamedGraph(r, g), Renamed(r, s), p, o);
      var t :| t in g && RenamedTriple(r, t) == Triple(Renamed(r, s), p, o);
      assert t == Triple(s, p, t.o);
      ObjectsMember(g, s, p, t.o);
    }
  }

  // ----- reachability and inherited identifiers

  ghost function RenamedEdges(r: Labels, e: Edges<Term>): Edges<Term> {
    set x | x in e :: (Renamed(r, x.0), Renamed(r, x.1))
  }

  lemma RenamedWalk(r: Labels, e: Edges<Term>, p: seq<Term>)
    requires Walk(e, p)
    ensures Reaches(RenamedEdges(r, e), Renamed(r, p[0]), Renamed(r, p[|p| - 1]))
  {
    var q := seq(|p|, i requires 0 <= i < |p| => Renamed(r, p[i]));
    forall i: nat | i + 1 < |q|
      ensures Link(RenamedEdges(r, e), q, i)
    {
      assert Link(e, p, i);
      var x := (p[i], p[i + 1]);
      assert (Renamed(r, x.0), Renamed(r, x.1)) in RenamedEdges(r, e);
    }
    assert WalkBetween(RenamedEdges(r, e), q, q[0], q[|q| - 1]);
  }

  ghost function ReachedNodes(e: Edges<Term>, a: Term): set<Term> {
    set x | x in Nodes(e, {a}) && Reaches(e, a, x)
  }

  lemma ReachedIsClosed(r: Labels, e: Edges<Term>, a: Term)
    requires OneToOne(r)
    ensures Closed(RenamedEdges(r, e), RenamedTerms(r, ReachedNodes(e, a)))
  {
    RenamedApart(r);
    forall y | y in RenamedEdges(r, e) && y.0 in RenamedTerms(r, ReachedNodes(e, a))
      ensures y.1 in RenamedTerms(r, ReachedNodes(e, a))
    {
      var x :| x in e && y == (Renamed(r, x.0), Renamed(r, x.1));
      assert x.0 in ReachedNodes(e, a);
      assert x == (x.0, x.1);
      ReachesEdge(e, a, x.0, x.1);
      assert x.1 in ReachedNodes(e, a);
    }
  }

  lemma ReachesRenamed(r: Labels, e: Edges<Term>, a: Term, b: Term)
    requires OneToOne(r)
    ensures Reaches(RenamedEdges(r, e), Renamed(r, a), Renamed(r, b)) <==> Reaches(e, a, b)
  {
    if Reaches(e, a, b) {
      var p :| WalkBetween(e, p, a, b);
      RenamedWalk(r, e, p);
    }
    if Reaches(RenamedEdges(r, e), Renamed(r, a), Renamed(r, b)) {
      var q :| WalkBetween(RenamedEdges(r, e), q, Renamed(r, a), Renamed(r, b));
      ReachesSelf(e, a);
      RenamedMember(r, ReachedNodes(e, a), a);
      ReachedIsClosed(r, e, a);
      ClosedKeepsWalk(RenamedEdges(r, e), RenamedTerms(r, ReachedNodes(e, a)), q);
      RenamedMember(r, ReachedNodes(e, a), b);
    }
  }

  lemma ContainersRenamed(r: Labels, shapes: Graph)
    requires OneToOne(r)
    ensures ContainerEdges(RenamedGraph(r, shapes)) == RenamedEdges(r, ContainerEdges(shapes))
  {
    forall t | t in shapes && t.p in CONTAINMENT_PREDICATES
      ensures (Renamed(r, t.o), Renamed(r, t.s)) in ContainerEdges(RenamedGraph(r, shapes))
    {
      assert RenamedTriple(r, t) in RenamedGraph(r, shapes);
    }
    forall t | t in shapes && RenamedTriple(r, t).p in CONTAINMENT_PREDICATES
      ensures (Renamed(r, t.o), Renamed(r, t.s)) in RenamedEdges(r, ContainerEdges(shapes))
    {
      assert t.p in CONTAINMENT_PREDICATES;
      assert (t.o, t.s) in ContainerEdges(shapes);
    }
  }

  /** The inherited requirement identifiers do not depend on the labels of blank nodes. */
  lemma InheritedIdsRenamed(r: Labels, shapes: Graph, shape: Term)
    requires OneToOne(r)
    ensures InheritedIds(RenamedGraph(r, shapes), Renamed(r, shape)) == InheritedIds(shapes, shape)
  {
    ContainersRenamed(r, shapes);
    var e := ContainerEdges(shapes);
    forall t | t in shapes
      ensures Reaches(RenamedEdges(r, e), Renamed(r, shape), RenamedTriple(r, t).s) <==> Reaches(e, shape, t.s)
    {
      ReachesRenamed(r, e, shape, t.s);
    }
    forall t | t in shapes && t.p == MOLIT_REQUIREMENT_ID && t.o.Literal? && Reaches(e, shape, t.s)
      ensures Str(t.o) in InheritedIds(RenamedGraph(r, shapes), Renamed(r, shape))
    {
      assert RenamedTriple(r, t) in RenamedGraph(r, shapes);
    }
    forall t | t in shapes && RenamedTriple(r, t).p == MOLIT_REQUIREMENT_ID && RenamedTriple(r, t).o.Literal?
               && Reaches(RenamedEdges(r, e), Renamed(r, shape), RenamedTriple(r, t).s)
      ensures Str(RenamedTriple(r, t).o) in InheritedIds(shapes, shape)
    {
    }
  }

  // ----- what relabelling does

  /** Blank nodes get their new label, everything else stays. */
  lemma RenamedByKind(r: Labels, x: string, t: Term)
    ensures Renamed(r, BNode(x)) == BNode(r(x))
    ensures !t.BNode? ==> Renamed(r, t) == t
  {
  }

  lemma RenamedGraphByTriples(r: Labels, g: Graph, t: Triple)
    ensures t in RenamedGraph(r, g)
       <==> exists s, p, o :: Triple(s, p, o) in g && t == Triple(Renamed(r, s), Renamed(r, p), Renamed(r, o))
  {
    if u :| u in g && t == RenamedTriple(r, u) {
      assert u == Triple(u.s, u.p, u.o);
    }
    if s, p, o :| Triple(s, p, o) in g && t == Triple(Renamed(r, s), Renamed(r, p), Renamed(r, o)) {
      assert t == RenamedTriple(r, Triple(s, p, o));
    }
  }
}
