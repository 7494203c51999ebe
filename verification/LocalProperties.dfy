/** `local_property_findings`: every local triple of a fixture against the ontology. */
module LocalProperties {
  import opened Rdf
  import opened Enumeration
  import opened Findings
  import opened Subclass
  import Schema = SchemaConsistency

  const OWL_ANNOTATION_PROPERTY := IRI(OWL_NS + "AnnotationProperty")

  function Declared(ontology: Graph, kind: Term): set<Term> {
    Subjects(ontology, RDF_TYPE, kind)
  }

  predicate IsObjectProperty(ontology: Graph, p: Term) {
    p in Declared(ontology, Schema.OWL_OBJECT_PROPERTY)
  }

  predicate IsDatatypeProperty(ontology: Graph, p: Term) {
    p in Declared(ontology, Schema.OWL_DATATYPE_PROPERTY)
  }

  predicate IsAnnotationProperty(ontology: Graph, p: Term) {
    p in Declared(ontology, OWL_ANNOTATION_PROPERTY)
  }

  function Domains(ontology: Graph, p: Term): set<Term> {
    Schema.Named(Objects(ontology, p, Schema.RDFS_DOMAIN))
  }

  function Ranges(ontology: Graph, p: Term): set<Term> {
    Schema.Named(Objects(ontology, p, Schema.RDFS_RANGE))
  }

  predicate IsLocal(ns: string, p: Term) {
    p.IRI? && StartsWith(Str(p), ns)
  }

  method MissingClasses(g: Graph, resource: Term, expected: set<Term>) returns (missing: set<Term>)
    ensures missing == set e | e in expected && !HasClass(g, resource, e)
  {
    missing := {};
    var order := Enumerate(expected);
    for i := 0 to |order|
      invariant missing == set e | e in order[..i] && !HasClass(g, resource, e)
    {
      assert order[..i + 1] == order[..i] + [order[i]];
      var matches := ResourceMatchesClass(g, resource, order[i]);
      if !matches {
        missing := missing + {order[i]};
      }
    }
    assert order[..|order|] == order;
    assert forall e :: e in order <==> e in Elements(order);
  }

  // ----- the findings on one triple

  ghost function DomainItem(ontology: Graph, explicit: Graph, dataset: string, t: Triple): set<Finding> {
    (if Domains(ontology, t.p) == {} then {LocalDomainMissing(dataset, Str(t.p))} else {})
    + (set d | d in Domains(ontology, t.p) && !HasClass(explicit, t.s, d)
         :: DomainTypeMismatch(dataset, Str(t.p), TermText(t.s), Str(d)))
  }

  ghost function ObjectItem(ontology: Graph, explicit: Graph, dataset: string, t: Triple): set<Finding> {
    if t.o.Literal? then {ObjectPropertyLiteral(dataset, Str(t.p), TermText(t.o))}
    else
      (if Ranges(ontology, t.p) == {} then {ObjectRangeMissing(dataset, Str(t.p))} else {})
      + (set r | r in Ranges(ontology, t.p) && !HasClass(explicit, t.o, r)
           :: RangeTypeMismatch(dataset, Str(t.p), TermText(t.o), Str(r)))
  }

  function DatatypeItem(ontology: Graph, dataset: string, t: Triple): set<Finding> {
    if !t.o.Literal? then {DatatypePropertyResource(dataset, Str(t.p), TermText(t.o))}
    else
      (if Ranges(ontology, t.p) == {} then {DatatypeRangeMissing(dataset, Str(t.p))} else {})
      + (set r | r in Ranges(ontology, t.p) && !DatatypeMatches(t.o, r)
           :: DatatypeRangeMismatch(dataset, Str(t.p), TermText(t.o), Str(r)))
  }

  ghost function TripleItem(ontology: Graph, explicit: Graph, ns: string, dataset: string, t: Triple): set<Finding> {
    if !IsLocal(ns, t.p) then {}
    else if !IsObjectProperty(ontology, t.p) && !IsDatatypeProperty(ontology, t.p)
      && !IsAnnotationProperty(ontology, t.p)
    then {UndeclaredLocalProperty(dataset, Str(t.p))}
    else if IsAnnotationProperty(ontology, t.p) then {}
    else DomainItem(ontology, explicit, dataset, t)
         + (if IsObjectProperty(ontology, t.p) then ObjectItem(ontology, explicit, dataset, t)
            else DatatypeItem(ontology, dataset, t))
  }

  method DomainFindings(ontology: Graph, explicit: Graph, dataset: string, t: Triple) returns (findings: set<Finding>)
    ensures findings == DomainItem(ontology, explicit, dataset, t)
  {
    var domains := Domains(ontology, t.p);
    findings := if domains == {} then {LocalDomainMissing(dataset, Str(t.p))} else {};
    var missing := MissingClasses(explicit, t.s, domains);
    findings := findings + set d | d in missing :: DomainTypeMismatch(dataset, Str(t.p), TermText(t.s), Str(d));
  }

  method ObjectFindings(ontology: Graph, explicit: Graph, dataset: string, t: Triple) returns (findings: set<Finding>)
    ensures findings == ObjectItem(ontology, explicit, dataset, t)
  {
    if t.o.Literal? {
      return {ObjectPropertyLiteral(dataset, Str(t.p), TermText(t.o))};
    }
    var ranges := Ranges(ontology, t.p);
    findings := if ranges == {} then {ObjectRangeMissing(dataset, Str(t.p))} else {};
    var missing := MissingClasses(explicit, t.o, ranges);
    findings := findings + set r | r in missing :: RangeTypeMismatch(dataset, Str(t.p), TermText(t.o), Str(r));
  }

  method TripleFindings(ontology: Graph, explicit: Graph, ns: string, dataset: string, t: Triple)
    returns (findings: set<Finding>)
    ensures findings == TripleItem(ontology, explicit, ns, dataset, t)
  {
    findings := {};
    if !IsLocal(ns, t.p) {
      return;
    }
    if !IsObjectProperty(ontology, t.p) && !IsDatatypeProperty(ontology, t.p) && !IsAnnotationProperty(ontology, t.p) {
      return {UndeclaredLocalProperty(dataset, Str(t.p))};
    }
    if IsAnnotationProperty(ontology, t.p) {
      return;
    }
    findings := DomainFindings(ontology, explicit, dataset, t);
    if IsObjectProperty(ontology, t.p) {
      var ranges := ObjectFindings(ontology, explicit, dataset, t);
      findings := findings + ranges;
    } else {
      findings := findings + DatatypeItem(ontology, dataset, t);
    }
  }

  method LocalPropertyFindings(ontology: Graph, explicit: Graph, fixture: Graph, ns: string, dataset: string)
    returns (findings: seq<Finding>)
    ensures Elements(findings) == Collect(fixture, t => TripleItem(ontology, explicit, ns, dataset, t))
  {
    ghost var item := t => TripleItem(ontology, explicit, ns, dataset, t);
    findings := [];
    var order := Enumerate(fixture);
    for i := 0 to |order|
      invariant Elements(findings) == Collect(Elements(order[..i]), item)
    {
      CollectStep(order, i, item);
      var found := TripleFindings(ontology, explicit, ns, dataset, order[i]);
      var more := Enumerate(found);
      AppendElements(findings, more);
      findings := findings + more;
    }
    CollectDone(order, item);
  }

  // ----- what the check means

  /** The triple uses its property as the ontology declares it. */
  ghost predicate Conforms(ontology: Graph, explicit: Graph, ns: string, t: Triple) {
    IsLocal(ns, t.p) && !IsAnnotationProperty(ontology, t.p) ==>
      && Domains(ontology, t.p) != {} && Ranges(ontology, t.p) != {}
      && (forall d | d in Domains(ontology, t.p) :: HasClass(explicit, t.s, d))
      && (|| (&& IsObjectProperty(ontology, t.p) && !t.o.Literal?
              && forall r | r in Ranges(ontology, t.p) :: HasClass(explicit, t.o, r))
          || (&& IsDatatypeProperty(ontology, t.p) && !IsObjectProperty(ontology, t.p) && t.o.Literal?
              && forall r | r in Ranges(ontology, t.p) :: DatatypeMatches(t.o, r)))
  }

  lemma DomainSilent(ontology: Graph, explicit: Graph, dataset: string, t: Triple)
    ensures DomainItem(ontology, explicit, dataset, t) == {}
       <==> Domains(ontology, t.p) != {} && forall d | d in Domains(ontology, t.p) :: HasClass(explicit, t.s, d)
  {
    forall d | d in Domains(ontology, t.p) && !HasClass(explicit, t.s, d)
      ensures DomainTypeMismatch(dataset, Str(t.p), TermText(t.s), Str(d)) in DomainItem(ontology, explicit, dataset, t)
    {
    }
    assert Domains(ontology, t.p) == {}
      ==> LocalDomainMissing(dataset, Str(t.p)) in DomainItem(ontology, explicit, dataset, t);
  }

  lemma ObjectSilent(ontology: Graph, explicit: Graph, dataset: string, t: Triple)
    ensures ObjectItem(ontology, explicit, dataset, t) == {}
       <==> !t.o.Literal? && Ranges(ontology, t.p) != {}
            && forall r | r in Ranges(ontology, t.p) :: HasClass(explicit, t.o, r)
  {
    var found := ObjectItem(ontology, explicit, dataset, t);
    assert t.o.Literal? ==> ObjectPropertyLiteral(dataset, Str(t.p), TermText(t.o)) in found;
    if !t.o.Literal? {
      forall r | r in Ranges(ontology, t.p) && !HasClass(explicit, t.o, r)
        ensures RangeTypeMismatch(dataset, Str(t.p), TermText(t.o), Str(r)) in found
      {
      }
      assert Ranges(ontology, t.p) == {} ==> ObjectRangeMissing(dataset, Str(t.p)) in found;
    }
  }

  lemma DatatypeSilent(ontology: Graph, dataset: string, t: Triple)
    ensures DatatypeItem(ontology, dataset, t) == {}
       <==> t.o.Literal? && Ranges(ontology, t.p) != {}
            && forall r | r in Ranges(ontology, t.p) :: DatatypeMatches(t.o, r)
  {
    var found := DatatypeItem(ontology, dataset, t);
    assert !t.o.Literal? ==> DatatypePropertyResource(dataset, Str(t.p), TermText(t.o)) in found;
    if t.o.Literal? {
      forall r | r in Ranges(ontology, t.p) && !DatatypeMatches(t.o, r)
        ensures DatatypeRangeMismatch(dataset, Str(t.p), TermText(t.o), Str(r)) in found
      {
      }
      assert Ranges(ontology, t.p) == {} ==> DatatypeRangeMissing(dataset, Str(t.p)) in found;
    }
  }

  lemma TripleSilent(ontology: Graph, explicit: Graph, ns: string, dataset: string, t: Triple)
    ensures TripleItem(ontology, explicit, ns, dataset, t) == {} <==> Conforms(ontology, explicit, ns, t)
  {
    DomainSilent(ontology, explicit, dataset, t);
    ObjectSilent(ontology, explicit, dataset, t);
    DatatypeSilent(ontology, dataset, t);
  }

  ghost predicate FixtureConforms(ontology: Graph, explicit: Graph, fixture: Graph, ns: string) {
    forall t | t in fixture :: Conforms(ontology, explicit, ns, t)
  }

  /** The check is silent exactly on fixtures whose every triple conforms. */
  lemma LocalVerdict(ontology: Graph, explicit: Graph, fixture: Graph, ns: string, dataset: string)
    ensures Collect(fixture, t => TripleItem(ontology, explicit, ns, dataset, t)) == {}
       <==> FixtureConforms(ontology, explicit, fixture, ns)
  {
    CollectEmpty(fixture, t => TripleItem(ontology, explicit, ns, dataset, t));
    forall t
      ensures TripleItem(ontology, explicit, ns, dataset, t) == {} <==> Conforms(ontology, explicit, ns, t)
    {
      TripleSilent(ontology, explicit, ns, dataset, t);
    }
  }

  lemma TripleItemShrinks(ontology: Graph, explicit: Graph, larger: Graph, ns: string, dataset: string, t: Triple)
    requires explicit <= larger
    ensures TripleItem(ontology, larger, ns, dataset, t) <= TripleItem(ontology, explicit, ns, dataset, t)
  {
    forall c, r | HasClass(explicit, r, c)
      ensures HasClass(larger, r, c)
    {
      HasClassMonotone(explicit, larger, r, c);
    }
    assert DomainItem(ontology, larger, dataset, t) <= DomainItem(ontology, explicit, dataset, t);
    assert ObjectItem(ontology, larger, dataset, t) <= ObjectItem(ontology, explicit, dataset, t);
  }

  /** With ontology and fixture fixed, more explicit triples never add a finding. */
  lemma MoreTriplesFewerFindings(ontology: Graph, explicit: Graph, larger: Graph, fixture: Graph, ns: string,
        dataset: string)
    requires explicit <= larger
    ensures Collect(fixture, t => TripleItem(ontology, larger, ns, dataset, t))
         <= Collect(fixture, t => TripleItem(ontology, explicit, ns, dataset, t))
  {
    var less := t => TripleItem(ontology, larger, ns, dataset, t);
    var more := t => TripleItem(ontology, explicit, ns, dataset, t);
    forall t
      ensures less(t) <= more(t)
    {
      TripleItemShrinks(ontology, explicit, larger, ns, dataset, t);
    }
  }
}
