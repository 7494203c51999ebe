/** Class reachability and value typing: `subclass_of`, `resource_matches_class`,
    `literal_datatype` and `datatype_matches`. */
module Subclass {
  import opened Rdf
  import opened Enumeration
  import opened Walks
  import Equivalence

  const RDFS_SUB_CLASS_OF := IRI(RDFS_NS + "subClassOf")
  const RDFS_RESOURCE := IRI(RDFS_NS + "Resource")
  const DCAT_RESOURCE := IRI(DCAT_NS + "Resource")
  const DCAT_RESOURCE_TYPES := {
    IRI(DCAT_NS + "Catalog"), IRI(DCAT_NS + "Dataset"), IRI(DCAT_NS + "DatasetSeries"),
    IRI(DCAT_NS + "DataService"), DCAT_RESOURCE }
  const XSD_STRING := IRI(XSD_NS + "string")
  const XSD_HEX_BINARY := IRI(XSD_NS + "hexBinary")

  predicate IsParentPredicate(p: Term) {
    p == RDFS_SUB_CLASS_OF || p == Equivalence.OWL_EQUIVALENT_CLASS
  }

  /** Forward `subClassOf` and `equivalentClass` edges into named classes. */
  ghost function ParentEdges(g: Graph): Edges<Term> {
    set t | t in g && IsParentPredicate(t.p) && t.o.IRI? :: (t.s, t.o)
  }

  lemma ParentEdgesMember(g: Graph, a: Term, b: Term)
    ensures (a, b) in ParentEdges(g)
       <==> b.IRI? && (Triple(a, RDFS_SUB_CLASS_OF, b) in g || Triple(a, Equivalence.OWL_EQUIVALENT_CLASS, b) in g)
  {
  }

  ghost predicate IsSubclass(g: Graph, actual: Term, expected: Term) {
    Reaches(ParentEdges(g), actual, expected)
  }

  /** The named classes among `candidates`, up to the first one equal to `expected`. */
  method NamedParents(candidates: set<Term>, expected: Term) returns (found: bool, named: seq<Term>)
    ensures found <==> expected in candidates && expected.IRI?
    ensures !found ==> forall c :: c in named <==> c in candidates && c.IRI?
  {
    found, named := false, [];
    var order := Enumerate(candidates);
    for i := 0 to |order|
      invariant !found && !(expected.IRI? && expected in order[..i])
      invariant forall c :: c in named <==> c in order[..i] && c.IRI?
    {
      assert order[..i + 1] == order[..i] + [order[i]];
      assert order[i] in Elements(order);
      if order[i].IRI? {
        if order[i] == expected {
          return true, named;
        }
        named := named + [order[i]];
      }
    }
    assert order[..|order|] == order;
    assert forall c :: c in Elements(order) <==> c in order;
  }

  method SubclassOf(g: Graph, actual: Term, expected: Term) returns (yes: bool)
    ensures yes <==> IsSubclass(g, actual, expected)
  {
    ghost var e := ParentEdges(g);
    if actual == expected {
      ReachesSelf(e, actual);
      return true;
    }
    var pending := [actual];
    var seen: set<Term> := {};
    FrontierStart(e, {actual}, pending);
    while pending != []
      invariant Frontier(e, {actual}, seen, pending)
      invariant expected !in seen && expected !in pending
      decreases Nodes(e, {actual}) - seen, |pending|
    {
      var current := pending[|pending| - 1];
      FrontierWithinNodes(e, {actual}, seen, pending);
      assert current in Elements(pending);
      if current in seen {
        FrontierSkip(e, {actual}, seen, pending);
        pending := pending[..|pending| - 1];
        continue;
      }
      ghost var before := seen;
      seen := seen + {current};
      ParentsAreSucc(g, current);
      var found, parents := NamedParents(Objects(g, current, RDFS_SUB_CLASS_OF), expected);
      if found {
        SuccMember(e, current, expected);
        ReachesEdge(e, actual, current, expected);
        return true;
      }
      var equal, equivalents := NamedParents(Objects(g, current, Equivalence.OWL_EQUIVALENT_CLASS), expected);
      if equal {
        SuccMember(e, current, expected);
        ReachesEdge(e, actual, current, expected);
        return true;
      }
      assert forall c :: c in Elements(parents + equivalents) <==> c in parents || c in equivalents;
      FrontierExpand(e, {actual}, before, pending, parents + equivalents);
      pending := pending[..|pending| - 1] + (parents + equivalents);
    }
    FrontierDone(e, {actual}, seen);
    return false;
  }

  lemma ParentsAreSucc(g: Graph, a: Term)
    ensures (set c | c in Objects(g, a, RDFS_SUB_CLASS_OF) && c.IRI?)
            + (set c | c in Objects(g, a, Equivalence.OWL_EQUIVALENT_CLASS) && c.IRI?)
         == Succ(ParentEdges(g), a)
  {
    forall c
      ensures c in Succ(ParentEdges(g), a)
         <==> c.IRI? && (c in Objects(g, a, RDFS_SUB_CLASS_OF) || c in Objects(g, a, Equivalence.OWL_EQUIVALENT_CLASS))
    {
      SuccMember(ParentEdges(g), a, c);
      ParentEdgesMember(g, a, c);
      ObjectsMember(g, a, RDFS_SUB_CLASS_OF, c);
      ObjectsMember(g, a, Equivalence.OWL_EQUIVALENT_CLASS, c);
    }
  }

  lemma SubclassTransitive(g: Graph, a: Term, b: Term, c: Term)
    requires IsSubclass(g, a, b) && IsSubclass(g, b, c)
    ensures IsSubclass(g, a, c)
  {
    ReachesTransitive(ParentEdges(g), a, b, c);
  }

  lemma SubclassMonotone(g: Graph, h: Graph, a: Term, b: Term)
    requires g <= h && IsSubclass(g, a, b)
    ensures IsSubclass(h, a, b)
  {
    ReachesMonotone(ParentEdges(g), ParentEdges(h), a, b);
  }

  // ----- typing of resources and literals

  /** What `resource_matches_class` decides: a non-literal that is typed, directly or
      through named superclasses, by the expected class. */
  ghost predicate HasClass(g: Graph, resource: Term, expected: Term) {
    && !resource.Literal?
    && (|| expected == RDFS_RESOURCE
        || (expected == DCAT_RESOURCE && exists c :: c in DCAT_RESOURCE_TYPES && Triple(resource, RDF_TYPE, c) in g)
        || (exists c: Term :: c.IRI? && Triple(resource, RDF_TYPE, c) in g && IsSubclass(g, c, expected)))
  }

  method ResourceMatchesClass(g: Graph, resource: Term, expected: Term) returns (matches: bool)
    ensures matches <==> HasClass(g, resource, expected)
  {
    if resource.Literal? {
      return false;
    }
    var types := set c | c in Objects(g, resource, RDF_TYPE) && c.IRI?;
    assert forall c :: c in types <==> c.IRI? && Triple(resource, RDF_TYPE, c) in g by {
      forall c
        ensures c in types <==> c.IRI? && Triple(resource, RDF_TYPE, c) in g
      {
        ObjectsMember(g, resource, RDF_TYPE, c);
      }
    }
    if expected == RDFS_RESOURCE {
      return true;
    }
    if expected == DCAT_RESOURCE && exists c :: c in types && c in DCAT_RESOURCE_TYPES {
      return true;
    }
    assert forall c :: c in DCAT_RESOURCE_TYPES ==> c.IRI?;
    var order := Enumerate(types);
    for i := 0 to |order|
      invariant forall j :: 0 <= j < i ==> !IsSubclass(g, order[j], expected)
    {
      assert order[i] in Elements(order);
      var yes := SubclassOf(g, order[i], expected);
      if yes {
        return true;
      }
    }
    forall c | c in types
      ensures !IsSubclass(g, c, expected)
    {
      assert c in Elements(order);
    }
    return false;
  }

  /** More explicit triples never take a class away. */
  lemma HasClassMonotone(g: Graph, h: Graph, resource: Term, expected: Term)
    requires g <= h && HasClass(g, resource, expected)
    ensures HasClass(h, resource, expected)
  {
    forall c | IsSubclass(g, c, expected)
      ensures IsSubclass(h, c, expected)
    {
      SubclassMonotone(g, h, c, expected);
    }
  }

  function LiteralDatatype(value: Term): Term
    requires value.Literal?
  {
    if Truthy(value.language) then RDF_LANG_STRING
    else if Truthy(value.datatypeIri) then IRI(value.datatypeIri.value)
    else XSD_STRING
  }

  predicate IsHexDigit(c: char) {
    '0' <= c <= '9' || 'A' <= c <= 'F' || 'a' <= c <= 'f'
  }

  predicate DatatypeMatches(value: Term, expected: Term)
    requires value.Literal?
  {
    && LiteralDatatype(value) == expected
    && !value.illTyped
    && (expected == XSD_HEX_BINARY ==>
          |value.lexical| % 2 == 0 && forall i :: 0 <= i < |value.lexical| ==> IsHexDigit(value.lexical[i]))
  }
}
