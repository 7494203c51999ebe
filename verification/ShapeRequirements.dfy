/** Requirement identifiers of a source shape: `_requirement_ids_for_source_shape`. */
module ShapeRequirements {
  import opened Rdf
  import opened Enumeration
  import opened Walks

  const MOLIT_REQUIREMENT_ID := IRI("https://data.molit.go.kr/def/molit-dcat-ap#requirementId")

  const CONTAINMENT_PREDICATES := {
    RDF_FIRST, RDF_REST, IRI(SH_NS + "and"), IRI(SH_NS + "condition"), IRI(SH_NS + "node"),
    IRI(SH_NS + "not"), IRI(SH_NS + "or"), IRI(SH_NS + "property"),
    IRI(SH_NS + "qualifiedValueShape"), IRI(SH_NS + "xone") }

  /** From a node to the nodes that contain it. */
  ghost function ContainerEdges(shapes: Graph): Edges<Term> {
    set t | t in shapes && t.p in CONTAINMENT_PREDICATES :: (t.o, t.s)
  }

  /** The literal identifiers on the shape or on any node that contains it, at any depth. */
  ghost function InheritedIds(shapes: Graph, shape: Term): set<string> {
    set t | t in shapes && t.p == MOLIT_REQUIREMENT_ID && t.o.Literal?
            && Reaches(ContainerEdges(shapes), shape, t.s) :: Str(t.o)
  }

  function OwnIds(shapes: Graph, node: Term): set<string> {
    set o | o in Objects(shapes, node, MOLIT_REQUIREMENT_ID) && o.Literal? :: Str(o)
  }

  function SubjectPredicates(g: Graph, o: Term): set<(Term, Term)> {
    set t | t in g && t.o == o :: (t.s, t.p)
  }

  /** The subjects of containment triples, one entry for each predicate. */
  method Parents(shapes: Graph, node: Term) returns (parents: seq<Term>)
    ensures Elements(parents) == Succ(ContainerEdges(shapes), node)
  {
    parents := [];
    var order := Enumerate(SubjectPredicates(shapes, node));
    for i := 0 to |order|
      invariant forall s :: s in parents <==> exists p :: p in CONTAINMENT_PREDICATES && (s, p) in order[..i]
    {
      assert order[..i + 1] == order[..i] + [order[i]];
      if order[i].1 in CONTAINMENT_PREDICATES {
        parents := parents + [order[i].0];
      }
    }
    assert order[..|order|] == order;
    forall s
      ensures s in parents <==> s in Succ(ContainerEdges(shapes), node)
    {
      SuccMember(ContainerEdges(shapes), node, s);
      if p :| p in CONTAINMENT_PREDICATES && (s, p) in order {
        assert (s, p) in Elements(order);
        var t := Triple(s, p, node);
        assert (t.o, t.s) in ContainerEdges(shapes);
      }
      if (node, s) in ContainerEdges(shapes) {
        var t :| t in shapes && t.p in CONTAINMENT_PREDICATES && t.o == node && t.s == s;
        assert (t.s, t.p) in Elements(order);
      }
    }
  }

  method RequirementIds(shapes: Graph, sourceShape: Term) returns (ids: set<string>)
    ensures ids == InheritedIds(shapes, sourceShape)
  {
    ghost var e := ContainerEdges(shapes);
    var queue := [sourceShape];
    var visited: set<Term> := {};
    ids := {};
    FrontierStart(e, {sourceShape}, queue);
    while queue != []
      invariant Frontier(e, {sourceShape}, visited, queue)
      invariant ids == IdsOn(shapes, visited)
      decreases Nodes(e, {sourceShape}) - visited, |queue|
    {
      FrontierWithinNodes(e, {sourceShape}, visited, queue);
      ghost var before, stack := visited, queue;
      var node := queue[|queue| - 1];
      assert node in Elements(queue);
      queue := queue[..|queue| - 1];
      if node in visited {
        FrontierSkip(e, {sourceShape}, visited, stack);
        continue;
      }
      visited := visited + {node};
      IdsOnStep(shapes, before, node);
      ids := ids + OwnIds(shapes, node);
      var parents := Parents(shapes, node);
      FrontierExpand(e, {sourceShape}, before, stack, parents);
      queue := queue + parents;
    }
    FrontierDone(e, {sourceShape}, visited);
    forall n
      ensures n in visited <==> Reaches(e, sourceShape, n)
    {
      assert n in visited <==> ReachedFrom(e, {sourceShape}, n);
    }
  }

  ghost function IdsOn(shapes: Graph, nodes: set<Term>): set<string> {
    set t | t in shapes && t.p == MOLIT_REQUIREMENT_ID && t.o.Literal? && t.s in nodes :: Str(t.o)
  }

  lemma IdsOnStep(shapes: Graph, nodes: set<Term>, node: Term)
    ensures IdsOn(shapes, nodes + {node}) == IdsOn(shapes, nodes) + OwnIds(shapes, node)
  {
  }

  /** A contained shape inherits every identifier of its container. */
  lemma IdsInherited(shapes: Graph, inner: Term, outer: Term)
    requires Reaches(ContainerEdges(shapes), inner, outer)
    ensures InheritedIds(shapes, outer) <= InheritedIds(shapes, inner)
  {
    forall t | t in shapes && Reaches(ContainerEdges(shapes), outer, t.s)
      ensures Reaches(ContainerEdges(shapes), inner, t.s)
    {
      ReachesTransitive(ContainerEdges(shapes), inner, outer, t.s);
    }
  }
}
