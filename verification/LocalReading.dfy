/** The findings on local properties read off the triples, one kind at a time, and the verdict. */
module LocalReading {
  import opened Wrappers
  import opened Rdf
  import opened Findings
  import opened Walks
  import opened Subclass
  import opened LocalProperties
  import opened Vocabulary

  // ----- what the triples say

  ghost predicate Declares(ontology: Graph, p: Term, kind: string) {
    Triple(p, RdfName("type"), OwlName(kind)) in ontology
  }

  predicate InNamespace(ns: string, p: Term) {
    p.IRI? && ns <= p.value
  }

  /** A local property that some triple of the ontology declares, and none as annotation. */
  ghost predicate IsChecked(ontology: Graph, ns: string, p: Term) {
    && InNamespace(ns, p) && !Declares(ontology, p, "AnnotationProperty")
    && (Declares(ontology, p, "ObjectProperty") || Declares(ontology, p, "DatatypeProperty"))
  }

  ghost predicate HasDomain(ontology: Graph, p: Term, d: Term) {
    d.IRI? && Triple(p, RdfsName("domain"), d) in ontology
  }

  ghost predicate HasRange(ontology: Graph, p: Term, r: Term) {
    r.IRI? && Triple(p, RdfsName("range"), r) in ontology
  }

  /** A well-typed literal whose datatype is `r`; for hexBinary, an even number of digits. */
  predicate IsOfDatatype(v: Term, r: Term) {
    && v.Literal? && !v.illTyped
    && r == (if v.language.Some? && v.language.value != "" then RdfName("langString")
             else if v.datatypeIri.Some? && v.datatypeIri.value != "" then IRI(v.datatypeIri.value)
             else XsdName("string"))
    && (r == XsdName("hexBinary") ==>
          |v.lexical| % 2 == 0 && forall i | 0 <= i < |v.lexical| :: v.lexical[i] in "0123456789abcdefABCDEF")
  }

  // ----- the definitions of the checks, by triples

  lemma DeclarationsByTriples(ontology: Graph, p: Term)
    ensures IsObjectProperty(ontology, p) <==> Declares(ontology, p, "ObjectProperty")
    ensures IsDatatypeProperty(ontology, p) <==> Declares(ontology, p, "DatatypeProperty")
    ensures IsAnnotationProperty(ontology, p) <==> Declares(ontology, p, "AnnotationProperty")
  {
    RdfTexts();
    OntologyTexts();
    SubjectsMember(ontology, RDF_TYPE, Schema.OWL_OBJECT_PROPERTY, p);
    SubjectsMember(ontology, RDF_TYPE, Schema.OWL_DATATYPE_PROPERTY, p);
    SubjectsMember(ontology, RDF_TYPE, OWL_ANNOTATION_PROPERTY, p);
  }

  lemma DomainsByTriples(ontology: Graph, p: Term)
    ensures forall d :: d in Domains(ontology, p) <==> HasDomain(ontology, p, d)
    ensures forall r :: r in Ranges(ontology, p) <==> HasRange(ontology, p, r)
  {
    RdfsTexts();
    forall v
      ensures v in Domains(ontology, p) <==> HasDomain(ontology, p, v)
      ensures v in Ranges(ontology, p) <==> HasRange(ontology, p, v)
    {
      ObjectsMember(ontology, p, Schema.RDFS_DOMAIN, v);
      ObjectsMember(ontology, p, Schema.RDFS_RANGE, v);
    }
  }

  lemma DatatypesByText(v: Term, r: Term)
    requires v.Literal?
    ensures DatatypeMatches(v, r) <==> IsOfDatatype(v, r)
  {
    RdfTexts();
    DatatypeTexts();
  }

  /** From class to named superclass or equivalent class. */
  ghost predicate IsParent(g: Graph, a: Term, b: Term) {
    b.IRI? && (Triple(a, RdfsName("subClassOf"), b) in g || Triple(a, OwlName("equivalentClass"), b) in g)
  }

  ghost predicate ClassChain(g: Graph, p: seq<Term>) {
    |p| > 0 && forall i: nat | i + 1 < |p| :: IsParent(g, p[i], p[i + 1])
  }

  ghost predicate ChainBetween(g: Graph, p: seq<Term>, a: Term, b: Term) {
    ClassChain(g, p) && p[0] == a && p[|p| - 1] == b
  }

  ghost predicate HasType(g: Graph, x: Term, c: Term) {
    c.IRI? && Triple(x, RdfName("type"), c) in g
  }

  /** The resource is an instance of the class by its explicit types. */
  ghost predicate IsInstance(g: Graph, x: Term, c: Term) {
    && !x.Literal?
    && (|| c == RdfsName("Resource")
        || (c == DcatName("Resource")
            && (|| HasType(g, x, DcatName("Catalog")) || HasType(g, x, DcatName("Dataset"))
                || HasType(g, x, DcatName("DatasetSeries")) || HasType(g, x, DcatName("DataService"))
                || HasType(g, x, DcatName("Resource"))))
        || exists k, p :: HasType(g, x, k) && ChainBetween(g, p, k, c))
  }

  lemma ChainsByTriples(g: Graph, p: seq<Term>)
    ensures Walk(ParentEdges(g), p) <==> ClassChain(g, p)
  {
    RdfsTexts();
    OwlTexts();
    forall i: nat | i + 1 < |p|
      ensures Link(ParentEdges(g), p, i) <==> IsParent(g, p[i], p[i + 1])
    {
      ParentEdgesMember(g, p[i], p[i + 1]);
    }
  }

  lemma SubclassesByTriples(g: Graph, a: Term, b: Term)
    ensures IsSubclass(g, a, b) <==> exists p :: ChainBetween(g, p, a, b)
  {
    if IsSubclass(g, a, b) {
      var p :| WalkBetween(ParentEdges(g), p, a, b);
      ChainsByTriples(g, p);
      assert ChainBetween(g, p, a, b);
    }
    if p :| ChainBetween(g, p, a, b) {
      ChainsByTriples(g, p);
      assert WalkBetween(ParentEdges(g), p, a, b);
    }
  }

  lemma InstancesByTriples(g: Graph, x: Term, c: Term)
    ensures HasClass(g, x, c) <==> IsInstance(g, x, c)
  {
    RdfTexts();
    RdfsTexts();
    ResourceTexts();
    forall k
      ensures IsSubclass(g, k, c) <==> exists p :: ChainBetween(g, p, k, c)
    {
      SubclassesByTriples(g, k, c);
    }
  }

  // ----- finding by finding

  lemma UndeclaredByTriples(ontology: Graph, explicit: Graph, ns: string, dataset: string, t: Triple, ds: string,
        x: string)
    ensures UndeclaredLocalProperty(ds, x) in TripleItem(ontology, explicit, ns, dataset, t)
       <==> && InNamespace(ns, t.p) && ds == dataset && x == t.p.value
            && !Declares(ontology, t.p, "ObjectProperty") && !Declares(ontology, t.p, "DatatypeProperty")
            && !Declares(ontology, t.p, "AnnotationProperty")
  {
    DeclarationsByTriples(ontology, t.p);
  }

  /** The triple's predicate is checked, and its domains are. */
  lemma DomainsReported(ontology: Graph, explicit: Graph, ns: string, dataset: string, t: Triple, ds: string, x: string,
        y: string, z: string)
    ensures LocalDomainMissing(ds, x) in TripleItem(ontology, explicit, ns, dataset, t)
       <==> IsChecked(ontology, ns, t.p) && ds == dataset && x == t.p.value && forall d :: !HasDomain(ontology, t.p, d)
    ensures DomainTypeMismatch(ds, x, y, z) in TripleItem(ontology, explicit, ns, dataset, t)
       <==> && IsChecked(ontology, ns, t.p) && ds == dataset && x == t.p.value && y == TermText(t.s)
            && exists d :: HasDomain(ontology, t.p, d) && !HasClass(explicit, t.s, d) && z == d.value
  {
    DeclarationsByTriples(ontology, t.p);
    DomainsByTriples(ontology, t.p);
  }

  /** An object property's value: a literal, without a range, or outside a range. */
  lemma ObjectsReported(ontology: Graph, explicit: Graph, ns: string, dataset: string, t: Triple, ds: string, x: string,
        y: string, z: string)
    ensures ObjectPropertyLiteral(ds, x, y) in TripleItem(ontology, explicit, ns, dataset, t)
       <==> && IsChecked(ontology, ns, t.p) && Declares(ontology, t.p, "ObjectProperty") && t.o.Literal?
            && ds == dataset && x == t.p.value && y == TermText(t.o)
    ensures ObjectRangeMissing(ds, x) in TripleItem(ontology, explicit, ns, dataset, t)
       <==> && IsChecked(ontology, ns, t.p) && Declares(ontology, t.p, "ObjectProperty") && !t.o.Literal?
            && ds == dataset && x == t.p.value && forall r :: !HasRange(ontology, t.p, r)
    ensures RangeTypeMismatch(ds, x, y, z) in TripleItem(ontology, explicit, ns, dataset, t)
       <==> && IsChecked(ontology, ns, t.p) && Declares(ontology, t.p, "ObjectProperty") && !t.o.Literal?
            && ds == dataset && x == t.p.value && y == TermText(t.o)
            && exists r :: HasRange(ontology, t.p, r) && !HasClass(explicit, t.o, r) && z == r.value
  {
    DeclarationsByTriples(ontology, t.p);
    DomainsByTriples(ontology, t.p);
  }

  /** A datatype property's value: a resource, without a range, or of another datatype. A property
      that is also declared as object property is treated as one. */
  lemma DatatypesReported(ontology: Graph, explicit: Graph, ns: string, dataset: string, t: Triple, ds: string,
        x: string,
        y: string, z: string)
    ensures DatatypePropertyResource(ds, x, y) in TripleItem(ontology, explicit, ns, dataset, t)
       <==> && IsChecked(ontology, ns, t.p) && !Declares(ontology, t.p, "ObjectProperty") && !t.o.Literal?
            && ds == dataset && x == t.p.value && y == TermText(t.o)
    ensures DatatypeRangeMissing(ds, x) in TripleItem(ontology, explicit, ns, dataset, t)
       <==> && IsChecked(ontology, ns, t.p) && !Declares(ontology, t.p, "ObjectProperty") && t.o.Literal?
            && ds == dataset && x == t.p.value && forall r :: !HasRange(ontology, t.p, r)
    ensures DatatypeRangeMismatch(ds, x, y, z) in TripleItem(ontology, explicit, ns, dataset, t)
       <==> && IsChecked(ontology, ns, t.p) && !Declares(ontology, t.p, "ObjectProperty") && t.o.Literal?
            && ds == dataset && x == t.p.value && y == TermText(t.o)
            && exists r :: HasRange(ontology, t.p, r) && !IsOfDatatype(t.o, r) && z == r.value
  {
    DeclarationsByTriples(ontology, t.p);
    DomainsByTriples(ontology, t.p);
    if t.o.Literal? {
      forall r
        ensures DatatypeMatches(t.o, r) <==> IsOfDatatype(t.o, r)
      {
        DatatypesByText(t.o, r);
      }
    }
  }

  // ----- the verdict

  /** A checked property used as declared: it has a domain and a range, the subject is an instance of
      every domain, and the value an instance or of the datatype of every range. */
  ghost predicate IsUsedAsDeclared(ontology: Graph, explicit: Graph, t: Triple) {
    && (exists d :: HasDomain(ontology, t.p, d)) && (exists r :: HasRange(ontology, t.p, r))
    && (forall d | HasDomain(ontology, t.p, d) :: IsInstance(explicit, t.s, d))
    && (if Declares(ontology, t.p, "ObjectProperty")
        then !t.o.Literal? && forall r | HasRange(ontology, t.p, r) :: IsInstance(explicit, t.o, r)
        else t.o.Literal? && forall r | HasRange(ontology, t.p, r) :: IsOfDatatype(t.o, r))
  }

  /** A triple of a fixture is not reported exactly if its predicate is not local, or is an annotation
      property, or is declared and used as declared. */
  lemma ConformsByTriples(ontology: Graph, explicit: Graph, ns: string, dataset: string, t: Triple)
    ensures TripleItem(ontology, explicit, ns, dataset, t) == {}
       <==> || !InNamespace(ns, t.p) || Declares(ontology, t.p, "AnnotationProperty")
            || (IsChecked(ontology, ns, t.p) && IsUsedAsDeclared(ontology, explicit, t))
  {
    TripleSilent(ontology, explicit, ns, dataset, t);
    DeclarationsByTriples(ontology, t.p);
    DomainsByTriples(ontology, t.p);
    forall x, c
      ensures HasClass(explicit, x, c) <==> IsInstance(explicit, x, c)
    {
      InstancesByTriples(explicit, x, c);
    }
    if t.o.Literal? {
      forall r
        ensures DatatypeMatches(t.o, r) <==> IsOfDatatype(t.o, r)
      {
        DatatypesByText(t.o, r);
      }
    }
  }
}
