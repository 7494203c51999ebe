/** The schema findings read off the triples, one kind of finding at a time. */
module SchemaReading {
  import opened Wrappers
  import opened Rdf
  import opened RdfList
  import opened Findings
  import opened Walks
  import opened Equivalence
  import opened Disjointness
  import opened Replacement
  import opened SchemaConsistency
  import opened Vocabulary

  // ----- what the triples say

  predicate TrueMarker(m: Term) {
    && m.Literal? && m.datatypeIri == Some("http://www.w3.org/2001/XMLSchema#" + "boolean") && !m.illTyped
    && (m.lexical == "true" || m.lexical == "1")
  }

  predicate FalseMarker(m: Term) {
    && m.Literal? && m.datatypeIri == Some("http://www.w3.org/2001/XMLSchema#" + "boolean") && !m.illTyped
    && (m.lexical == "false" || m.lexical == "0")
  }

  ghost predicate IsMarkedDeprecated(ontology: Graph, t: Term) {
    exists m :: TrueMarker(m) && Triple(t, OwlName("deprecated"), m) in ontology
  }

  /** `t` is deprecated and replaced by `r`. */
  ghost predicate IsReplacedBy(ontology: Graph, t: Term, r: Term) {
    IsMarkedDeprecated(ontology, t) && Triple(t, IRI("http://purl.org/dc/terms/isReplacedBy"), r) in ontology
  }

  /** From deprecated term to replacement, at least once. */
  ghost predicate ReplacementWalk(ontology: Graph, p: seq<Term>) {
    |p| >= 2 && forall i: nat | i + 1 < |p| :: IsReplacedBy(ontology, p[i], p[i + 1])
  }

  ghost predicate ReturnsTo(ontology: Graph, t: Term) {
    exists p :: ReplacementWalk(ontology, p) && p[0] == t && p[|p| - 1] == t
  }

  ghost predicate LeadsOut(ontology: Graph, t: Term) {
    exists p :: ReplacementWalk(ontology, p) && p[0] == t && !IsMarkedDeprecated(ontology, p[|p| - 1])
  }

  /** The two are connected by one of the three equivalences. */
  ghost predicate AnyEquivalent(ontology: Graph, a: Term, b: Term) {
    || Equivalent(ontology, OwlName("equivalentClass"), a, b)
    || Equivalent(ontology, OwlName("equivalentProperty"), a, b)
    || Equivalent(ontology, OwlName("sameAs"), a, b)
  }

  ghost predicate IsKind(ontology: Graph, ns: string, t: Term, kind: Term) {
    ns <= Str(t) && Triple(t, RdfName("type"), kind) in ontology
  }

  ghost predicate IsLocalProperty(ontology: Graph, ns: string, t: Term) {
    IsKind(ontology, ns, t, OwlName("ObjectProperty")) || IsKind(ontology, ns, t, OwlName("DatatypeProperty"))
  }

  /** `v` is a named value of the property. */
  ghost predicate Names(ontology: Graph, t: Term, p: Term, v: Term) {
    v.IRI? && Triple(t, p, v) in ontology
  }

  predicate NamesDatatype(t: Term) {
    || "http://www.w3.org/2001/XMLSchema#" <= Str(t)
    || t == RdfsName("Literal")
    || t == RdfName("langString")
  }

  ghost predicate DatatypeIn(schema: Graph, r: Term) {
    NamesDatatype(r) || Triple(r, RdfName("type"), RdfsName("Datatype")) in schema
  }

  /** A node of the kind names the list at `head`. */
  ghost predicate NamedList(g: Graph, kind: Term, members: Term, node: Term, head: Term) {
    Triple(node, RdfName("type"), kind) in g && Triple(node, members, head) in g
  }

  /** `a` stands before `b` in the list at `head`. */
  ghost predicate InListOrder(g: Graph, head: Term, a: Term, b: Term) {
    exists values, i, j ::
      IsList(g, head, values) && 0 <= i < j < |values| && values[i] == a && values[j] == b
  }

  ghost predicate ListedPair(g: Graph, kind: Term, members: Term, a: Term, b: Term) {
    exists node, head :: NamedList(g, kind, members, node, head) && InListOrder(g, head, a, b)
  }

  ghost predicate DisjointPair(g: Graph, direct: Term, kind: Term, a: Term, b: Term) {
    Triple(a, direct, b) in g || ListedPair(g, kind, OwlName("members"), a, b)
  }

  // ----- the definitions of the checks, by triples

  lemma MarkersByText(m: Term)
    ensures IsTrueBoolean(m) <==> TrueMarker(m)
    ensures IsFalseBoolean(m) <==> FalseMarker(m)
  {
    DatatypeTexts();
  }

  lemma DeprecatedByTriples(ontology: Graph, t: Term)
    ensures t in Deprecated(ontology) <==> IsMarkedDeprecated(ontology, t)
  {
    OntologyTexts();
    if t in Deprecated(ontology) {
      var x :| x in ontology && x.p == OWL_DEPRECATED && IsTrueBoolean(x.o) && x.s == t;
      MarkersByText(x.o);
      assert x == Triple(t, OWL_DEPRECATED, x.o);
    }
    if m :| TrueMarker(m) && Triple(t, OWL_DEPRECATED, m) in ontology {
      MarkersByText(m);
      assert Triple(t, OWL_DEPRECATED, m).s == t;
    }
  }

  lemma ReplacementsByTriples(ontology: Graph, t: Term, r: Term)
    ensures r in Get(ReplacementGraphOf(ontology), t) <==> IsReplacedBy(ontology, t, r)
    ensures (t, r) in EdgesOf(ReplacementGraphOf(ontology)) <==> IsReplacedBy(ontology, t, r)
  {
    OntologyTexts();
    DeprecatedByTriples(ontology, t);
    ObjectsMember(ontology, t, DCT_IS_REPLACED_BY, r);
  }

  lemma WalksByTriples(ontology: Graph, p: seq<Term>)
    requires |p| >= 2
    ensures Walk(EdgesOf(ReplacementGraphOf(ontology)), p) <==> ReplacementWalk(ontology, p)
  {
    var e := EdgesOf(ReplacementGraphOf(ontology));
    forall i: nat | i + 1 < |p|
      ensures Link(e, p, i) <==> IsReplacedBy(ontology, p[i], p[i + 1])
    {
      ReplacementsByTriples(ontology, p[i], p[i + 1]);
    }
  }

  lemma CyclesByTriples(ontology: Graph, t: Term)
    ensures OnCycle(EdgesOf(ReplacementGraphOf(ontology)), t) <==> ReturnsTo(ontology, t)
  {
    var e := EdgesOf(ReplacementGraphOf(ontology));
    if OnCycle(e, t) {
      var p :| WalkBetween(e, p, t, t) && |p| >= 2;
      WalksByTriples(ontology, p);
    }
    if p :| ReplacementWalk(ontology, p) && p[0] == t && p[|p| - 1] == t {
      WalksByTriples(ontology, p);
      assert WalkBetween(e, p, t, t);
    }
  }

  lemma TerminalsByTriples(ontology: Graph, t: Term)
    ensures HasTerminal(ReplacementGraphOf(ontology), Deprecated(ontology), t) <==> LeadsOut(ontology, t)
  {
    var e := EdgesOf(ReplacementGraphOf(ontology));
    if HasTerminal(ReplacementGraphOf(ontology), Deprecated(ontology), t) {
      var x :| x !in Deprecated(ontology) && ReachesPlus(e, t, x);
      var p :| WalkBetween(e, p, t, x) && |p| >= 2;
      WalksByTriples(ontology, p);
      DeprecatedByTriples(ontology, x);
    }
    if p :| ReplacementWalk(ontology, p) && p[0] == t && !IsMarkedDeprecated(ontology, p[|p| - 1]) {
      WalksByTriples(ontology, p);
      assert WalkBetween(e, p, t, p[|p| - 1]);
      DeprecatedByTriples(ontology, p[|p| - 1]);
    }
  }

  lemma EquivalencesByText(ontology: Graph, a: Term, b: Term)
    ensures SomehowEquivalent(ontology, a, b) <==> AnyEquivalent(ontology, a, b)
  {
    OwlTexts();
  }

  lemma HeadsByTriples(g: Graph, kind: Term, members: set<Term>, head: Term)
    ensures head in Heads(g, kind, members)
       <==> exists node, p :: p in members && Triple(node, RdfName("type"), kind) in g && Triple(node, p, head) in g
  {
    RdfTexts();
    if head in Heads(g, kind, members) {
      var node, p :| node in Subjects(g, RDF_TYPE, kind) && p in members && head in Objects(g, node, p);
      SubjectsMember(g, RDF_TYPE, kind, node);
      ObjectsMember(g, node, p, head);
    }
    if node, p :| p in members && Triple(node, RdfName("type"), kind) in g && Triple(node, p, head) in g {
      SubjectsMember(g, RDF_TYPE, kind, node);
      ObjectsMember(g, node, p, head);
    }
  }

  lemma OrderByPositions(g: Graph, head: Term, a: Term, b: Term)
    ensures ListedBefore(g, head, a, b) <==> InListOrder(g, head, a, b)
  {
    if ListedBefore(g, head, a, b) {
      var values :| IsList(g, head, values) && InOrder(values, a, b);
    }
    if InListOrder(g, head, a, b) {
      var values, i, j :| IsList(g, head, values) && 0 <= i < j < |values| && values[i] == a && values[j] == b;
      assert InOrder(values, a, b);
    }
  }

  /** Two terms of a list that a node of the kind names by one of the predicates. */
  ghost predicate ListedByOne(g: Graph, kind: Term, members: set<Term>, a: Term, b: Term) {
    exists p :: p in members && ListedPair(g, kind, p, a, b)
  }

  lemma ListedIsNamed(g: Graph, kind: Term, members: set<Term>, a: Term, b: Term)
    requires ListedInSome(g, Heads(g, kind, members), a, b)
    ensures ListedByOne(g, kind, members, a, b)
  {
    var head :| head in Heads(g, kind, members) && ListedBefore(g, head, a, b);
    OrderByPositions(g, head, a, b);
    HeadsByTriples(g, kind, members, head);
    var node, p :| p in members && Triple(node, RdfName("type"), kind) in g && Triple(node, p, head) in g;
    assert NamedList(g, kind, p, node, head);
  }

  lemma NamedIsListed(g: Graph, kind: Term, members: set<Term>, p: Term, a: Term, b: Term)
    requires p in members && ListedPair(g, kind, p, a, b)
    ensures ListedInSome(g, Heads(g, kind, members), a, b)
  {
    var node, head :| NamedList(g, kind, p, node, head) && InListOrder(g, head, a, b);
    OrderByPositions(g, head, a, b);
    HeadsByTriples(g, kind, members, head);
  }

  lemma PairsByTriples(g: Graph, kind: Term, members: set<Term>, a: Term, b: Term)
    ensures ListedInSome(g, Heads(g, kind, members), a, b) <==> ListedByOne(g, kind, members, a, b)
  {
    if ListedInSome(g, Heads(g, kind, members), a, b) {
      ListedIsNamed(g, kind, members, a, b);
    }
    if ListedByOne(g, kind, members, a, b) {
      var p :| p in members && ListedPair(g, kind, p, a, b);
      NamedIsListed(g, kind, members, p, a, b);
    }
  }

  lemma DisjointByTriples(g: Graph, direct: Term, kind: Term, a: Term, b: Term)
    ensures DeclaredDisjoint(g, direct, kind, a, b) <==> DisjointPair(g, direct, kind, a, b)
  {
    OwlTexts();
    PairsByTriples(g, kind, {OWL_MEMBERS}, a, b);
  }

  /** The replacements of an ontology are sound exactly if every deprecated term has one, none is
      equivalent to what it replaces, and no chain of them returns. */
  lemma ReplacementsSoundByTriples(ontology: Graph)
    ensures ReplacementsSound(ontology, true)
       <==> && (forall t | IsMarkedDeprecated(ontology, t) :: exists r :: IsReplacedBy(ontology, t, r))
            && (forall t, r | IsReplacedBy(ontology, t, r) :: !AnyEquivalent(ontology, t, r))
            && (forall t :: !ReturnsTo(ontology, t))
  {
    SoundByParts(ontology);
    forall t
      ensures ReturnsTo(ontology, t) ==> IsMarkedDeprecated(ontology, t)
    {
      if p :| ReplacementWalk(ontology, p) && p[0] == t && p[|p| - 1] == t {
        assert IsReplacedBy(ontology, p[0], p[1]);
      }
    }
  }

  lemma SoundByParts(ontology: Graph)
    ensures var rg, deprecated := ReplacementGraphOf(ontology), Deprecated(ontology);
            && (AllReplaced(rg, deprecated)
                <==> forall t | IsMarkedDeprecated(ontology, t) :: exists r :: IsReplacedBy(ontology, t, r))
            && (NoCycles(rg, deprecated) <==> forall t | IsMarkedDeprecated(ontology, t) :: !ReturnsTo(ontology, t))
            && ((forall t, r | t in deprecated && r in Get(rg, t) :: !SomehowEquivalent(ontology, t, r))
                <==> forall t, r | IsReplacedBy(ontology, t, r) :: !AnyEquivalent(ontology, t, r))
  {
    var rg, deprecated := ReplacementGraphOf(ontology), Deprecated(ontology);
    forall t
      ensures t in deprecated <==> IsMarkedDeprecated(ontology, t)
      ensures OnCycle(EdgesOf(rg), t) <==> ReturnsTo(ontology, t)
    {
      DeprecatedByTriples(ontology, t);
      CyclesByTriples(ontology, t);
    }
    forall t, r
      ensures r in Get(rg, t) <==> IsReplacedBy(ontology, t, r)
      ensures SomehowEquivalent(ontology, t, r) <==> AnyEquivalent(ontology, t, r)
    {
      ReplacementsByTriples(ontology, t, r);
      EquivalencesByText(ontology, t, r);
    }
  }

  // ----- finding by finding

  predicate IsDeclarationKind(f: Finding) {
    || f.OwlImportsProhibited? || f.PropertyKindContradiction? || f.SchemaDomainMissing? || f.SchemaRangeMissing?
    || f.PropertyDomainNotClass? || f.ObjectPropertyDatatypeRange? || f.DatatypePropertyResourceRange?
    || f.LocalEquivalenceProhibited? || f.DeprecatedMarkerInvalid?
  }

  predicate IsReplacementKind(f: Finding) {
    f.DeprecatedReplacementMissing? || f.DeprecatedSelfReplacement? || f.DeprecatedReplacementEquivalent?
  }

  predicate IsChainKind(f: Finding) {
    f.DeprecatedReplacementCycle? || f.DeprecatedReplacementTerminalMissing?
  }

  ghost predicate FromDeclarations(ontology: Graph, schema: Graph, ns: string, config: Config, f: Finding) {
    f in DeclarationChecks(ontology, schema, ns, config)
  }

  ghost predicate FromClasses(schema: Graph, f: Finding) {
    IsClash(schema, OWL_DISJOINT_WITH, OWL_ALL_DISJOINT_CLASSES, OWL_EQUIVALENT_CLASS, CLASS_CLASH, f)
  }

  ghost predicate FromProperties(schema: Graph, f: Finding) {
    IsClash(schema, OWL_PROPERTY_DISJOINT_WITH, OWL_ALL_DISJOINT_PROPERTIES, OWL_EQUIVALENT_PROPERTY, PROPERTY_CLASH, f)
  }

  ghost predicate FromReplacements(ontology: Graph, required: bool, f: Finding) {
    exists t :: t in Deprecated(ontology) && f in ReplacementItem(ontology, required, ReplacementGraphOf(ontology), t)
  }

  ghost predicate FromChains(ontology: Graph, f: Finding) {
    exists t :: t in Deprecated(ontology) && f in ChainItem(ReplacementGraphOf(ontology), Deprecated(ontology), t)
  }

  lemma ByCheck(ontology: Graph, schema: Graph, ns: string, config: Config, f: Finding)
    ensures IsSchemaFinding(ontology, schema, ns, config, f)
       <==> || FromDeclarations(ontology, schema, ns, config, f)
            || FromClasses(schema, f) || FromProperties(schema, f)
            || FromReplacements(ontology, config.requireDeprecatedReplacement, f) || FromChains(ontology, f)
  {
    var rg, deprecated := ReplacementGraphOf(ontology), Deprecated(ontology);
    CollectMember(deprecated, t => ReplacementItem(ontology, config.requireDeprecatedReplacement, rg, t), f);
    CollectMember(deprecated, t => ChainItem(rg, deprecated, t), f);
  }

  lemma CollectMember<T>(done: set<T>, item: T -> set<Finding>, f: Finding)
    ensures f in Collect(done, item) <==> exists t :: t in done && f in item(t)
  {
  }

  lemma DeclarationKinds(ontology: Graph, schema: Graph, ns: string, config: Config, f: Finding)
    ensures FromDeclarations(ontology, schema, ns, config, f)
       <==> || (f.OwlImportsProhibited? && exists t :: t in schema && t.p == OWL_IMPORTS)
            || (f.PropertyKindContradiction? && f in KindFindings(ontology, ns))
            || (IsDomainKind(f) && FromProperty(ontology, schema, ns, config, f))
            || (f.LocalEquivalenceProhibited? && config.prohibitLocalEquivalence
                && f in LocalEquivalenceFindings(ontology, ns))
            || (f.DeprecatedMarkerInvalid? && f in MarkerFindings(ontology))
  {
    forall t | f in DeclarationFindings(ontology, schema, ns, t)
      ensures IsDomainKind(f)
    {
      DomainKinds(ontology, schema, ns, t, f);
    }
  }

  predicate IsDomainKind(f: Finding) {
    || f.SchemaDomainMissing? || f.SchemaRangeMissing? || f.PropertyDomainNotClass? || f.ObjectPropertyDatatypeRange?
    || f.DatatypePropertyResourceRange?
  }

  ghost predicate FromProperty(ontology: Graph, schema: Graph, ns: string, config: Config, f: Finding) {
    && config.requireExplicitDomainRangeTypes
    && exists t :: t in LocalProperties(ontology, ns) && f in DeclarationFindings(ontology, schema, ns, t)
  }

  lemma DomainKinds(ontology: Graph, schema: Graph, ns: string, t: Term, f: Finding)
    requires f in DeclarationFindings(ontology, schema, ns, t)
    ensures IsDomainKind(f)
  {
  }

  lemma ClashKinds(schema: Graph, f: Finding)
    ensures FromClasses(schema, f) ==> f.EquivalentDisjointClass?
    ensures FromProperties(schema, f) ==> f.EquivalentDisjointProperty?
  {
  }

  lemma ReplacementKinds(ontology: Graph, required: bool, rg: ReplacementGraph, t: Term, f: Finding)
    ensures f in ReplacementItem(ontology, required, rg, t) ==> IsReplacementKind(f)
  {
  }

  lemma ChainKinds(rg: ReplacementGraph, deprecated: set<Term>, t: Term, f: Finding)
    ensures f in ChainItem(rg, deprecated, t) ==> IsChainKind(f)
  {
  }

  lemma OtherKinds(ontology: Graph, schema: Graph, required: bool, f: Finding)
    ensures FromClasses(schema, f) ==> f.EquivalentDisjointClass?
    ensures FromProperties(schema, f) ==> f.EquivalentDisjointProperty?
    ensures FromReplacements(ontology, required, f) ==> IsReplacementKind(f)
    ensures FromChains(ontology, f) ==> IsChainKind(f)
  {
    var rg, deprecated := ReplacementGraphOf(ontology), Deprecated(ontology);
    ClashKinds(schema, f);
    forall t
      ensures f in ReplacementItem(ontology, required, rg, t) ==> IsReplacementKind(f)
      ensures f in ChainItem(rg, deprecated, t) ==> IsChainKind(f)
    {
      ReplacementKinds(ontology, required, rg, t, f);
      ChainKinds(rg, deprecated, t, f);
    }
  }

  /** Which of the checks reports a kind of finding. */
  lemma ReportedBy(ontology: Graph, schema: Graph, ns: string, config: Config, f: Finding)
    ensures IsSchemaFinding(ontology, schema, ns, config, f)
       <==> if IsDeclarationKind(f) then FromDeclarations(ontology, schema, ns, config, f)
            else if f.EquivalentDisjointClass? then FromClasses(schema, f)
            else if f.EquivalentDisjointProperty? then FromProperties(schema, f)
            else if IsReplacementKind(f) then FromReplacements(ontology, config.requireDeprecatedReplacement, f)
            else IsChainKind(f) && FromChains(ontology, f)
  {
    ByCheck(ontology, schema, ns, config, f);
    DeclarationKinds(ontology, schema, ns, config, f);
    OtherKinds(ontology, schema, config.requireDeprecatedReplacement, f);
  }

  // the declaration checks

  lemma ImportsByTriples(ontology: Graph, schema: Graph, ns: string, config: Config)
    ensures IsSchemaFinding(ontology, schema, ns, config, OwlImportsProhibited)
       <==> exists s, o :: Triple(s, OwlName("imports"), o) in schema
  {
    ReportedBy(ontology, schema, ns, config, OwlImportsProhibited);
    DeclarationKinds(ontology, schema, ns, config, OwlImportsProhibited);
    OntologyTexts();
    if t :| t in schema && t.p == OWL_IMPORTS {
      assert t == Triple(t.s, OwlName("imports"), t.o);
    }
  }

  lemma KindMember(ontology: Graph, ns: string, t: Term, kind: Term)
    ensures t in LocalSubjects(ontology, kind, ns) <==> IsKind(ontology, ns, t, kind)
  {
    RdfTexts();
    SubjectsMember(ontology, RDF_TYPE, kind, t);
  }

  lemma LocalPropertyMember(ontology: Graph, ns: string, t: Term)
    ensures t in LocalProperties(ontology, ns) <==> IsLocalProperty(ontology, ns, t)
    ensures t in LocalSubjects(ontology, OWL_OBJECT_PROPERTY, ns)
       <==> IsKind(ontology, ns, t, OwlName("ObjectProperty"))
    ensures t in LocalSubjects(ontology, OWL_DATATYPE_PROPERTY, ns)
       <==> IsKind(ontology, ns, t, OwlName("DatatypeProperty"))
  {
    OntologyTexts();
    KindMember(ontology, ns, t, OWL_OBJECT_PROPERTY);
    KindMember(ontology, ns, t, OWL_DATATYPE_PROPERTY);
  }

  lemma NamedMember(ontology: Graph, t: Term, p: Term, v: Term)
    ensures v in Named(Objects(ontology, t, p)) <==> Names(ontology, t, p, v)
  {
    ObjectsMember(ontology, t, p, v);
  }

  lemma DatatypesByText(schema: Graph, t: Term)
    ensures IsDatatypeName(t) <==> NamesDatatype(t)
    ensures IsDatatype(schema, t) <==> DatatypeIn(schema, t)
  {
    RdfTexts();
    RdfsTexts();
    DatatypeTexts();
  }

  ghost predicate BothKinds(ontology: Graph, ns: string, t: Term) {
    IsKind(ontology, ns, t, OwlName("ObjectProperty")) && IsKind(ontology, ns, t, OwlName("DatatypeProperty"))
  }

  lemma ContradictionsByTriples(ontology: Graph, schema: Graph, ns: string, config: Config, x: string)
    ensures IsSchemaFinding(ontology, schema, ns, config, PropertyKindContradiction(x))
       <==> exists t :: BothKinds(ontology, ns, t) && x == TermText(t)
  {
    var f := PropertyKindContradiction(x);
    ReportedBy(ontology, schema, ns, config, f);
    DeclarationKinds(ontology, schema, ns, config, f);
    forall t
      ensures BothKinds(ontology, ns, t)
         <==> && t in LocalSubjects(ontology, OWL_OBJECT_PROPERTY, ns)
              && t in LocalSubjects(ontology, OWL_DATATYPE_PROPERTY, ns)
    {
      LocalPropertyMember(ontology, ns, t);
    }
  }

  ghost predicate HasNo(ontology: Graph, t: Term, p: Term) {
    forall v :: !Names(ontology, t, p, v)
  }

  ghost predicate IsLocalKind(ontology: Graph, ns: string, t: Term, kind: Term, p: Term, v: Term) {
    IsKind(ontology, ns, t, kind) && Names(ontology, t, p, v)
  }

  lemma MissingByTriples(ontology: Graph, schema: Graph, ns: string, config: Config, x: string)
    ensures IsSchemaFinding(ontology, schema, ns, config, SchemaDomainMissing(x))
       <==> && config.requireExplicitDomainRangeTypes
            && exists t ::
                 IsLocalProperty(ontology, ns, t) && HasNo(ontology, t, RdfsName("domain")) && x == TermText(t)
    ensures IsSchemaFinding(ontology, schema, ns, config, SchemaRangeMissing(x))
       <==> && config.requireExplicitDomainRangeTypes
            && exists t ::
                 IsLocalProperty(ontology, ns, t) && HasNo(ontology, t, RdfsName("range")) && x == TermText(t)
  {
    ReportedBy(ontology, schema, ns, config, SchemaDomainMissing(x));
    ReportedBy(ontology, schema, ns, config, SchemaRangeMissing(x));
    DeclarationKinds(ontology, schema, ns, config, SchemaDomainMissing(x));
    DeclarationKinds(ontology, schema, ns, config, SchemaRangeMissing(x));
    forall t
      ensures t in LocalProperties(ontology, ns) <==> IsLocalProperty(ontology, ns, t)
      ensures SchemaDomainMissing(x) in DeclarationFindings(ontology, schema, ns, t)
         <==> HasNo(ontology, t, RdfsName("domain")) && x == TermText(t)
      ensures SchemaRangeMissing(x) in DeclarationFindings(ontology, schema, ns, t)
         <==> HasNo(ontology, t, RdfsName("range")) && x == TermText(t)
    {
      LocalPropertyMember(ontology, ns, t);
      MissingIn(ontology, schema, ns, t, x);
    }
  }

  lemma MissingIn(ontology: Graph, schema: Graph, ns: string, t: Term, x: string)
    ensures SchemaDomainMissing(x) in DeclarationFindings(ontology, schema, ns, t)
       <==> HasNo(ontology, t, RdfsName("domain")) && x == TermText(t)
    ensures SchemaRangeMissing(x) in DeclarationFindings(ontology, schema, ns, t)
       <==> HasNo(ontology, t, RdfsName("range")) && x == TermText(t)
  {
    RdfsTexts();
    NoneNamed(ontology, t, RDFS_DOMAIN);
    NoneNamed(ontology, t, RDFS_RANGE);
    MissingItems(ontology, schema, ns, t, x);
  }

  lemma NoneNamed(ontology: Graph, t: Term, p: Term)
    ensures Named(Objects(ontology, t, p)) == {} <==> HasNo(ontology, t, p)
  {
    forall v
      ensures v in Named(Objects(ontology, t, p)) <==> Names(ontology, t, p, v)
    {
      NamedMember(ontology, t, p, v);
    }
  }

  lemma MissingItems(ontology: Graph, schema: Graph, ns: string, t: Term, x: string)
    ensures SchemaDomainMissing(x) in DeclarationFindings(ontology, schema, ns, t)
       <==> Named(Objects(ontology, t, RDFS_DOMAIN)) == {} && x == TermText(t)
    ensures SchemaRangeMissing(x) in DeclarationFindings(ontology, schema, ns, t)
       <==> Named(Objects(ontology, t, RDFS_RANGE)) == {} && x == TermText(t)
  {
  }

  /** The property's named values of `p` are the wanted ones, for both predicates and both tests. */
  lemma NamesInTriples(ontology: Graph, schema: Graph, t: Term)
    ensures forall v :: v in Named(Objects(ontology, t, RDFS_DOMAIN)) <==> Names(ontology, t, RdfsName("domain"), v)
    ensures forall v :: v in Named(Objects(ontology, t, RDFS_RANGE)) <==> Names(ontology, t, RdfsName("range"), v)
    ensures forall v :: IsDatatypeName(v) <==> NamesDatatype(v)
    ensures forall v :: IsDatatype(schema, v) <==> DatatypeIn(schema, v)
  {
    RdfsTexts();
    forall v
      ensures v in Named(Objects(ontology, t, RDFS_DOMAIN)) <==> Names(ontology, t, RdfsName("domain"), v)
      ensures v in Named(Objects(ontology, t, RDFS_RANGE)) <==> Names(ontology, t, RdfsName("range"), v)
      ensures IsDatatypeName(v) <==> NamesDatatype(v)
      ensures IsDatatype(schema, v) <==> DatatypeIn(schema, v)
    {
      NamedMember(ontology, t, RDFS_DOMAIN, v);
      NamedMember(ontology, t, RDFS_RANGE, v);
      DatatypesByText(schema, v);
    }
  }

  ghost predicate WrongDomain(ontology: Graph, t: Term, d: Term) {
    Names(ontology, t, RdfsName("domain"), d) && NamesDatatype(d)
  }

  ghost predicate WrongObjectRange(ontology: Graph, schema: Graph, ns: string, t: Term, r: Term) {
    IsLocalKind(ontology, ns, t, OwlName("ObjectProperty"), RdfsName("range"), r) && DatatypeIn(schema, r)
  }

  ghost predicate WrongDatatypeRange(ontology: Graph, schema: Graph, ns: string, t: Term, r: Term) {
    IsLocalKind(ontology, ns, t, OwlName("DatatypeProperty"), RdfsName("range"), r) && !DatatypeIn(schema, r)
  }

  lemma WrongDomainIn(ontology: Graph, schema: Graph, ns: string, t: Term, x: string, y: string)
    ensures PropertyDomainNotClass(x, y) in DeclarationFindings(ontology, schema, ns, t)
       <==> exists d :: WrongDomain(ontology, t, d) && x == TermText(t) && y == TermText(d)
  {
    NamesInTriples(ontology, schema, t);
  }

  lemma WrongObjectRangeIn(ontology: Graph, schema: Graph, ns: string, t: Term, x: string, y: string)
    ensures ObjectPropertyDatatypeRange(x, y) in DeclarationFindings(ontology, schema, ns, t)
       <==> exists r :: WrongObjectRange(ontology, schema, ns, t, r) && x == TermText(t) && y == TermText(r)
  {
    NamesInTriples(ontology, schema, t);
    LocalPropertyMember(ontology, ns, t);
  }

  lemma WrongDatatypeRangeIn(ontology: Graph, schema: Graph, ns: string, t: Term, x: string, y: string)
    ensures DatatypePropertyResourceRange(x, y) in DeclarationFindings(ontology, schema, ns, t)
       <==> exists r :: WrongDatatypeRange(ontology, schema, ns, t, r) && x == TermText(t) && y == TermText(r)
  {
    NamesInTriples(ontology, schema, t);
    LocalPropertyMember(ontology, ns, t);
  }

  /** A domain that is a datatype, and a range of the wrong sort. */
  lemma WrongByTriples(ontology: Graph, schema: Graph, ns: string, config: Config, x: string, y: string)
    ensures IsSchemaFinding(ontology, schema, ns, config, PropertyDomainNotClass(x, y))
       <==> && config.requireExplicitDomainRangeTypes
            && exists t, d :: IsLocalProperty(ontology, ns, t) && WrongDomain(ontology, t, d)
                 && x == TermText(t) && y == TermText(d)
    ensures IsSchemaFinding(ontology, schema, ns, config, ObjectPropertyDatatypeRange(x, y))
       <==> && config.requireExplicitDomainRangeTypes
            && exists t, r :: WrongObjectRange(ontology, schema, ns, t, r) && x == TermText(t) && y == TermText(r)
    ensures IsSchemaFinding(ontology, schema, ns, config, DatatypePropertyResourceRange(x, y))
       <==> && config.requireExplicitDomainRangeTypes
            && exists t, r :: WrongDatatypeRange(ontology, schema, ns, t, r) && x == TermText(t) && y == TermText(r)
  {
    var f, g, h := PropertyDomainNotClass(x, y), ObjectPropertyDatatypeRange(x, y), DatatypePropertyResourceRange(x, y);
    ReportedBy(ontology, schema, ns, config, f);
    ReportedBy(ontology, schema, ns, config, g);
    ReportedBy(ontology, schema, ns, config, h);
    DeclarationKinds(ontology, schema, ns, config, f);
    DeclarationKinds(ontology, schema, ns, config, g);
    DeclarationKinds(ontology, schema, ns, config, h);
    forall t
      ensures t in LocalProperties(ontology, ns) <==> IsLocalProperty(ontology, ns, t)
      ensures f in DeclarationFindings(ontology, schema, ns, t)
         <==> exists d :: WrongDomain(ontology, t, d) && x == TermText(t) && y == TermText(d)
      ensures g in DeclarationFindings(ontology, schema, ns, t)
         <==> exists r :: WrongObjectRange(ontology, schema, ns, t, r) && x == TermText(t) && y == TermText(r)
      ensures h in DeclarationFindings(ontology, schema, ns, t)
         <==> exists r :: WrongDatatypeRange(ontology, schema, ns, t, r) && x == TermText(t) && y == TermText(r)
    {
      LocalPropertyMember(ontology, ns, t);
      WrongDomainIn(ontology, schema, ns, t, x, y);
      WrongObjectRangeIn(ontology, schema, ns, t, x, y);
      WrongDatatypeRangeIn(ontology, schema, ns, t, x, y);
    }
  }

  predicate IsEquivalence(p: Term) {
    p == OwlName("equivalentClass") || p == OwlName("equivalentProperty") || p == OwlName("sameAs")
  }

  lemma LocalEquivalencesByTriples(ontology: Graph, schema: Graph, ns: string, config: Config, x: string, y: string,
        z: string)
    ensures IsSchemaFinding(ontology, schema, ns, config, LocalEquivalenceProhibited(x, y, z))
       <==> && config.prohibitLocalEquivalence
            && exists t :: t in ontology && IsEquivalence(t.p) && (ns <= Str(t.s) || ns <= Str(t.o))
                 && x == TermText(t.s) && y == Str(t.p) && z == TermText(t.o)
  {
    var f := LocalEquivalenceProhibited(x, y, z);
    ReportedBy(ontology, schema, ns, config, f);
    DeclarationKinds(ontology, schema, ns, config, f);
    OwlTexts();
  }

  lemma MarkersByTriples(ontology: Graph, schema: Graph, ns: string, config: Config, x: string, y: string)
    ensures IsSchemaFinding(ontology, schema, ns, config, DeprecatedMarkerInvalid(x, y))
       <==> exists t, m :: Triple(t, OwlName("deprecated"), m) in ontology && !TrueMarker(m) && !FalseMarker(m)
              && x == TermText(t) && y == TermText(m)
  {
    var f := DeprecatedMarkerInvalid(x, y);
    ReportedBy(ontology, schema, ns, config, f);
    DeclarationKinds(ontology, schema, ns, config, f);
    OntologyTexts();
    forall m
      ensures IsTrueBoolean(m) <==> TrueMarker(m)
      ensures IsFalseBoolean(m) <==> FalseMarker(m)
    {
      MarkersByText(m);
    }
    forall t | t in ontology && t.p == OWL_DEPRECATED
      ensures t == Triple(t.s, OwlName("deprecated"), t.o)
    {
    }
  }

  // the equivalence checks

  ghost predicate Clashes(g: Graph, direct: Term, kind: Term, equivalence: Term, a: Term, b: Term) {
    DisjointPair(g, direct, kind, a, b) && Equivalent(g, equivalence, a, b)
  }

  lemma ClashesByTriples(ontology: Graph, schema: Graph, ns: string, config: Config, x: string, y: string)
    ensures IsSchemaFinding(ontology, schema, ns, config, EquivalentDisjointClass(x, y))
       <==> exists a, b ::
              && Clashes(schema, OwlName("disjointWith"), OwlName("AllDisjointClasses"),
                   OwlName("equivalentClass"), a, b)
              && x == TermText(a) && y == TermText(b)
    ensures IsSchemaFinding(ontology, schema, ns, config, EquivalentDisjointProperty(x, y))
       <==> exists a, b ::
              && Clashes(schema, OwlName("propertyDisjointWith"), OwlName("AllDisjointProperties"),
                   OwlName("equivalentProperty"), a, b)
              && x == TermText(a) && y == TermText(b)
  {
    ReportedBy(ontology, schema, ns, config, EquivalentDisjointClass(x, y));
    ReportedBy(ontology, schema, ns, config, EquivalentDisjointProperty(x, y));
    OwlTexts();
    ClashIn(schema, OWL_DISJOINT_WITH, OWL_ALL_DISJOINT_CLASSES, OWL_EQUIVALENT_CLASS, CLASS_CLASH,
      EquivalentDisjointClass(x, y), x, y);
    ClashIn(schema, OWL_PROPERTY_DISJOINT_WITH, OWL_ALL_DISJOINT_PROPERTIES, OWL_EQUIVALENT_PROPERTY, PROPERTY_CLASH,
      EquivalentDisjointProperty(x, y), x, y);
  }

  lemma ClashIn(g: Graph, direct: Term, kind: Term, equivalence: Term, make: (string, string) -> Finding, f: Finding,
        x: string, y: string)
    requires forall a, b :: f == make(a, b) <==> a == x && b == y
    ensures IsClash(g, direct, kind, equivalence, make, f)
       <==> exists a, b :: Clashes(g, direct, kind, equivalence, a, b) && x == TermText(a) && y == TermText(b)
  {
    if IsClash(g, direct, kind, equivalence, make, f) {
      var a, b :| DeclaredDisjoint(g, direct, kind, a, b) && ClashOf(g, equivalence, make, a, b, f);
      DisjointByTriples(g, direct, kind, a, b);
      assert Clashes(g, direct, kind, equivalence, a, b);
    }
    if a, b :| Clashes(g, direct, kind, equivalence, a, b) && x == TermText(a) && y == TermText(b) {
      DisjointByTriples(g, direct, kind, a, b);
      assert ClashOf(g, equivalence, make, a, b, f);
    }
  }

  // the replacement checks

  /** Deprecated and not replaced by anything. */
  ghost predicate LacksReplacement(ontology: Graph, t: Term) {
    IsMarkedDeprecated(ontology, t) && forall r :: !IsReplacedBy(ontology, t, r)
  }

  lemma ReplacementFacts(ontology: Graph, t: Term)
    ensures t in Deprecated(ontology) <==> IsMarkedDeprecated(ontology, t)
    ensures forall r :: r in Get(ReplacementGraphOf(ontology), t) <==> IsReplacedBy(ontology, t, r)
    ensures forall r :: SomehowEquivalent(ontology, t, r) <==> AnyEquivalent(ontology, t, r)
  {
    DeprecatedByTriples(ontology, t);
    forall r
      ensures r in Get(ReplacementGraphOf(ontology), t) <==> IsReplacedBy(ontology, t, r)
      ensures SomehowEquivalent(ontology, t, r) <==> AnyEquivalent(ontology, t, r)
    {
      ReplacementsByTriples(ontology, t, r);
      EquivalencesByText(ontology, t, r);
    }
  }

  lemma ReplacementIn(ontology: Graph, required: bool, t: Term, x: string, y: string)
    requires t in Deprecated(ontology)
    ensures var item := ReplacementItem(ontology, required, ReplacementGraphOf(ontology), t);
            && (DeprecatedReplacementMissing(x) in item
                <==> required && LacksReplacement(ontology, t) && x == TermText(t))
            && (DeprecatedSelfReplacement(x) in item <==> IsReplacedBy(ontology, t, t) && x == TermText(t))
            && (DeprecatedReplacementEquivalent(x, y) in item
                <==> exists r :: IsReplacedBy(ontology, t, r) && AnyEquivalent(ontology, t, r)
                       && x == TermText(t) && y == TermText(r))
  {
    ReplacementFacts(ontology, t);
    EquivalentIn(ontology, t, Get(ReplacementGraphOf(ontology), t), x, y);
  }

  lemma EquivalentIn(ontology: Graph, t: Term, replacements: set<Term>, x: string, y: string)
    ensures DeprecatedReplacementEquivalent(x, y) in EquivalentItem(ontology, t, replacements)
       <==> exists r :: r in replacements && SomehowEquivalent(ontology, t, r) && x == TermText(t) && y == TermText(r)
  {
  }

  lemma ReplacementMissingByTriples(ontology: Graph, schema: Graph, ns: string, config: Config, x: string)
    ensures IsSchemaFinding(ontology, schema, ns, config, DeprecatedReplacementMissing(x))
       <==> config.requireDeprecatedReplacement && exists t :: LacksReplacement(ontology, t) && x == TermText(t)
  {
    ReportedBy(ontology, schema, ns, config, DeprecatedReplacementMissing(x));
    forall t
      ensures t in Deprecated(ontology) <==> IsMarkedDeprecated(ontology, t)
      ensures t in Deprecated(ontology) ==>
        (DeprecatedReplacementMissing(x)
           in ReplacementItem(ontology, config.requireDeprecatedReplacement, ReplacementGraphOf(ontology), t)
         <==> config.requireDeprecatedReplacement && LacksReplacement(ontology, t) && x == TermText(t))
    {
      DeprecatedByTriples(ontology, t);
      if t in Deprecated(ontology) {
        ReplacementIn(ontology, config.requireDeprecatedReplacement, t, x, x);
      }
    }
  }

  lemma SelfReplacementByTriples(ontology: Graph, schema: Graph, ns: string, config: Config, x: string)
    ensures IsSchemaFinding(ontology, schema, ns, config, DeprecatedSelfReplacement(x))
       <==> exists t :: IsReplacedBy(ontology, t, t) && x == TermText(t)
  {
    ReportedBy(ontology, schema, ns, config, DeprecatedSelfReplacement(x));
    forall t
      ensures t in Deprecated(ontology) <==> IsMarkedDeprecated(ontology, t)
      ensures t in Deprecated(ontology) ==>
        (DeprecatedSelfReplacement(x)
           in ReplacementItem(ontology, config.requireDeprecatedReplacement, ReplacementGraphOf(ontology), t)
         <==> IsReplacedBy(ontology, t, t) && x == TermText(t))
    {
      DeprecatedByTriples(ontology, t);
      if t in Deprecated(ontology) {
        ReplacementIn(ontology, config.requireDeprecatedReplacement, t, x, x);
      }
    }
  }

  /** A deprecated term that is equivalent to its replacement. */
  ghost predicate EquivalentlyReplaced(ontology: Graph, t: Term, r: Term) {
    IsReplacedBy(ontology, t, r) && AnyEquivalent(ontology, t, r)
  }

  lemma EquivalentReplacementByTriples(ontology: Graph, schema: Graph, ns: string, config: Config, x: string, y: string)
    ensures IsSchemaFinding(ontology, schema, ns, config, DeprecatedReplacementEquivalent(x, y))
       <==> exists t, r :: EquivalentlyReplaced(ontology, t, r) && x == TermText(t) && y == TermText(r)
  {
    var f, required := DeprecatedReplacementEquivalent(x, y), config.requireDeprecatedReplacement;
    ReportedBy(ontology, schema, ns, config, f);
    if t :| t in Deprecated(ontology) && f in ReplacementItem(ontology, required, ReplacementGraphOf(ontology), t) {
      ReplacementIn(ontology, required, t, x, y);
      var r :| IsReplacedBy(ontology, t, r) && AnyEquivalent(ontology, t, r) && x == TermText(t) && y == TermText(r);
      assert EquivalentlyReplaced(ontology, t, r);
    }
    if t, r :| EquivalentlyReplaced(ontology, t, r) && x == TermText(t) && y == TermText(r) {
      DeprecatedByTriples(ontology, t);
      ReplacementIn(ontology, required, t, x, y);
    }
  }

  lemma ChainIn(ontology: Graph, t: Term, x: string)
    ensures var item := ChainItem(ReplacementGraphOf(ontology), Deprecated(ontology), t);
            && (DeprecatedReplacementCycle(x) in item <==> ReturnsTo(ontology, t) && x == TermText(t))
            && (DeprecatedReplacementTerminalMissing(x) in item <==> LeadsNowhere(ontology, t) && x == TermText(t))
  {
    CyclesByTriples(ontology, t);
    TerminalsByTriples(ontology, t);
    ReplacementFacts(ontology, t);
  }

  /** Replaced, but by no chain that ends at a term that is not deprecated. */
  ghost predicate LeadsNowhere(ontology: Graph, t: Term) {
    (exists r :: IsReplacedBy(ontology, t, r)) && !LeadsOut(ontology, t)
  }

  lemma CycleByTriples(ontology: Graph, schema: Graph, ns: string, config: Config, x: string)
    ensures IsSchemaFinding(ontology, schema, ns, config, DeprecatedReplacementCycle(x))
       <==> exists t :: ReturnsTo(ontology, t) && x == TermText(t)
  {
    ReportedBy(ontology, schema, ns, config, DeprecatedReplacementCycle(x));
    forall t
      ensures ReturnsTo(ontology, t) ==> t in Deprecated(ontology)
      ensures DeprecatedReplacementCycle(x) in ChainItem(ReplacementGraphOf(ontology), Deprecated(ontology), t)
         <==> ReturnsTo(ontology, t) && x == TermText(t)
    {
      if ReturnsTo(ontology, t) {
        ReturningIsDeprecated(ontology, t);
      }
      ChainIn(ontology, t, x);
    }
  }

  lemma ReturningIsDeprecated(ontology: Graph, t: Term)
    requires ReturnsTo(ontology, t)
    ensures t in Deprecated(ontology)
  {
    var p :| ReplacementWalk(ontology, p) && p[0] == t && p[|p| - 1] == t;
    assert IsReplacedBy(ontology, p[0], p[1]);
    DeprecatedByTriples(ontology, t);
  }

  lemma TerminalMissingByTriples(ontology: Graph, schema: Graph, ns: string, config: Config, x: string)
    ensures IsSchemaFinding(ontology, schema, ns, config, DeprecatedReplacementTerminalMissing(x))
       <==> exists t :: LeadsNowhere(ontology, t) && x == TermText(t)
  {
    var f := DeprecatedReplacementTerminalMissing(x);
    ReportedBy(ontology, schema, ns, config, f);
    forall t
      ensures LeadsNowhere(ontology, t) ==> t in Deprecated(ontology)
      ensures f in ChainItem(ReplacementGraphOf(ontology), Deprecated(ontology), t)
         <==> LeadsNowhere(ontology, t) && x == TermText(t)
    {
      DeprecatedByTriples(ontology, t);
      ChainIn(ontology, t, x);
    }
  }
}
