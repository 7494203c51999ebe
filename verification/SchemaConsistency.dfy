/** `schema_consistency_findings`: the checks on the ontology and the merged schema. */
module SchemaConsistency {
  import opened Wrappers
  import opened Rdf
  import opened Enumeration
  import opened RdfList
  import opened Findings
  import opened Walks
  import opened Equivalence
  import opened Disjointness
  import opened Replacement

  const OWL_IMPORTS := IRI(OWL_NS + "imports")
  const OWL_OBJECT_PROPERTY := IRI(OWL_NS + "ObjectProperty")
  const OWL_DATATYPE_PROPERTY := IRI(OWL_NS + "DatatypeProperty")
  const OWL_DEPRECATED := IRI(OWL_NS + "deprecated")
  const RDFS_DOMAIN := IRI(RDFS_NS + "domain")
  const RDFS_RANGE := IRI(RDFS_NS + "range")
  const RDFS_LITERAL := IRI(RDFS_NS + "Literal")
  const RDFS_DATATYPE := IRI(RDFS_NS + "Datatype")
  const DCT_IS_REPLACED_BY := IRI("http://purl.org/dc/terms/isReplacedBy")

  /** The switches of the registry's `owlConsistency` section. */
  datatype Config = Config(
    requireExplicitDomainRangeTypes: bool,
    prohibitLocalEquivalence: bool,
    requireDeprecatedReplacement: bool,
    failOnDeprecatedFixtureUse: bool)

  // ----- property declarations

  function LocalSubjects(ontology: Graph, kind: Term, ns: string): set<Term> {
    set t | t in Subjects(ontology, RDF_TYPE, kind) && StartsWith(Str(t), ns)
  }

  function Named(terms: set<Term>): set<Term> {
    set t | t in terms && t.IRI?
  }

  function KindFindings(ontology: Graph, ns: string): set<Finding> {
    set t | t in LocalSubjects(ontology, OWL_OBJECT_PROPERTY, ns)
      && t in LocalSubjects(ontology, OWL_DATATYPE_PROPERTY, ns)
      :: PropertyKindContradiction(TermText(t))
  }

  predicate IsDatatypeName(t: Term) {
    StartsWith(Str(t), XSD_NS) || t == RDFS_LITERAL || t == RDF_LANG_STRING
  }

  predicate IsDatatype(schema: Graph, t: Term) {
    IsDatatypeName(t) || Triple(t, RDF_TYPE, RDFS_DATATYPE) in schema
  }

  function DeclarationFindings(ontology: Graph, schema: Graph, ns: string, t: Term): set<Finding> {
    var domains := Named(Objects(ontology, t, RDFS_DOMAIN));
    var ranges := Named(Objects(ontology, t, RDFS_RANGE));
    (if domains == {} then {SchemaDomainMissing(TermText(t))} else {})
    + (if ranges == {} then {SchemaRangeMissing(TermText(t))} else {})
    + (set d | d in domains && IsDatatypeName(d) :: PropertyDomainNotClass(TermText(t), TermText(d)))
    + (set r | r in ranges && t in LocalSubjects(ontology, OWL_OBJECT_PROPERTY, ns) && IsDatatype(schema, r)
         :: ObjectPropertyDatatypeRange(TermText(t), TermText(r)))
    + (set r | r in ranges && t in LocalSubjects(ontology, OWL_DATATYPE_PROPERTY, ns) && !IsDatatype(schema, r)
         :: DatatypePropertyResourceRange(TermText(t), TermText(r)))
  }

  function LocalProperties(ontology: Graph, ns: string): set<Term> {
    LocalSubjects(ontology, OWL_OBJECT_PROPERTY, ns) + LocalSubjects(ontology, OWL_DATATYPE_PROPERTY, ns)
  }

  predicate IsLocalEquivalence(ns: string, t: Triple) {
    && t.p in {OWL_EQUIVALENT_CLASS, OWL_EQUIVALENT_PROPERTY, OWL_SAME_AS}
    && (StartsWith(Str(t.s), ns) || StartsWith(Str(t.o), ns))
  }

  function LocalEquivalenceFindings(ontology: Graph, ns: string): set<Finding> {
    set t | t in ontology && IsLocalEquivalence(ns, t)
      :: LocalEquivalenceProhibited(TermText(t.s), Str(t.p), TermText(t.o))
  }

  // ----- deprecation markers

  predicate IsBoolean(t: Term, lexicals: set<string>) {
    t.Literal? && t.datatypeIri == Some(XSD_NS + "boolean") && t.lexical in lexicals && !t.illTyped
  }

  predicate IsTrueBoolean(t: Term) {
    IsBoolean(t, {"true", "1"})
  }

  predicate IsFalseBoolean(t: Term) {
    IsBoolean(t, {"false", "0"})
  }

  function Deprecated(ontology: Graph): set<Term> {
    set t | t in ontology && t.p == OWL_DEPRECATED && IsTrueBoolean(t.o) :: t.s
  }

  function MarkerFindings(ontology: Graph): set<Finding> {
    set t | t in ontology && t.p == OWL_DEPRECATED && !IsTrueBoolean(t.o) && !IsFalseBoolean(t.o)
      :: DeprecatedMarkerInvalid(TermText(t.s), TermText(t.o))
  }

  // ----- disjointness

  /** `f` reports a declared disjoint pair that is equivalent. */
  ghost predicate IsClash(g: Graph, direct: Term, kind: Term, equivalence: Term,
        make: (string, string) -> Finding, f: Finding)
  {
    exists a, b :: DeclaredDisjoint(g, direct, kind, a, b) && ClashOf(g, equivalence, make, a, b, f)
  }

  ghost predicate ClashOf(g: Graph, equivalence: Term, make: (string, string) -> Finding, a: Term, b: Term, f: Finding)
  {
    Equivalent(g, equivalence, a, b) && f == make(TermText(a), TermText(b))
  }

  method ClashFindings(g: Graph, direct: Term, kind: Term, equivalence: Term, make: (string, string) -> Finding)
    returns (r: Result<seq<Finding>, ListError>)
    ensures r.Ok? <==> AllHoldLists(g, Heads(g, kind, {OWL_MEMBERS}))
    ensures r.Ok? ==> forall f :: f in r.value <==> IsClash(g, direct, kind, equivalence, make, f)
  {
    var pairs := DisjointPairs(g, direct, kind);
    if pairs.Err? {
      return Err(pairs.error);
    }
    var findings: seq<Finding> := [];
    var order := Enumerate(pairs.value);
    for i := 0 to |order|
      invariant forall f :: f in findings <==>
        exists p :: p in order[..i] && ClashOf(g, equivalence, make, p.0, p.1, f)
    {
      var (left, right) := order[i];
      assert order[..i + 1] == order[..i] + [(left, right)];
      var connected := EquivalentConnected(g, left, right, equivalence);
      if connected {
        findings := findings + [make(TermText(left), TermText(right))];
      }
    }
    assert order[..|order|] == order;
    forall a, b
      ensures DeclaredDisjoint(g, direct, kind, a, b) <==> (a, b) in order
    {
      assert (a, b) in Elements(order) <==> (a, b) in order;
    }
    return Ok(findings);
  }

  lemma ClashSilent(g: Graph, direct: Term, kind: Term, equivalence: Term, make: (string, string) -> Finding)
    ensures (forall f :: !IsClash(g, direct, kind, equivalence, make, f))
       <==> DisjointnessSilent(g, direct, kind, equivalence)
  {
    if forall f :: !IsClash(g, direct, kind, equivalence, make, f) {
      forall a, b | DeclaredDisjoint(g, direct, kind, a, b)
        ensures !Equivalent(g, equivalence, a, b)
      {
        var f := make(TermText(a), TermText(b));
        assert !IsClash(g, direct, kind, equivalence, make, f);
        assert !ClashOf(g, equivalence, make, a, b, f);
      }
    }
  }

  // ----- replacement of deprecated terms

  function ReplacementGraphOf(ontology: Graph): ReplacementGraph {
    map t | t in Deprecated(ontology) :: Objects(ontology, t, DCT_IS_REPLACED_BY)
  }

  /** Some equivalence predicate connects the two terms. */
  ghost predicate SomehowEquivalent(ontology: Graph, a: Term, b: Term) {
    || Equivalent(ontology, OWL_EQUIVALENT_CLASS, a, b)
    || Equivalent(ontology, OWL_EQUIVALENT_PROPERTY, a, b)
    || Equivalent(ontology, OWL_SAME_AS, a, b)
  }

  /** The findings on the replacements of one deprecated term. */
  ghost function ReplacementItem(ontology: Graph, required: bool, rg: ReplacementGraph, t: Term): set<Finding> {
    (if required && Get(rg, t) == {} then {DeprecatedReplacementMissing(TermText(t))} else {})
    + (if t in Get(rg, t) then {DeprecatedSelfReplacement(TermText(t))} else {})
    + EquivalentItem(ontology, t, Get(rg, t))
  }

  ghost function EquivalentItem(ontology: Graph, t: Term, replacements: set<Term>): set<Finding> {
    set r | r in replacements && SomehowEquivalent(ontology, t, r)
      :: DeprecatedReplacementEquivalent(TermText(t), TermText(r))
  }

  /** The findings on the replacement chains from one deprecated term. */
  ghost function ChainItem(rg: ReplacementGraph, deprecated: set<Term>, t: Term): set<Finding> {
    (if OnCycle(EdgesOf(rg), t) then {DeprecatedReplacementCycle(TermText(t))} else {})
    + (if TerminalMissing(rg, deprecated, t) then {DeprecatedReplacementTerminalMissing(TermText(t))} else {})
  }

  method EquivalentReplacements(ontology: Graph, t: Term, replacements: set<Term>) returns (findings: seq<Finding>)
    ensures Elements(findings) == EquivalentItem(ontology, t, replacements)
  {
    findings := [];
    var order := Enumerate(replacements);
    for i := 0 to |order|
      invariant Elements(findings) == EquivalentItem(ontology, t, Elements(order[..i]))
    {
      assert Elements(order[..i + 1]) == Elements(order[..i]) + {order[i]};
      var same := EquivalentConnected(ontology, t, order[i], OWL_EQUIVALENT_CLASS);
      if !same {
        same := EquivalentConnected(ontology, t, order[i], OWL_EQUIVALENT_PROPERTY);
      }
      if !same {
        same := EquivalentConnected(ontology, t, order[i], OWL_SAME_AS);
      }
      if same {
        var finding := DeprecatedReplacementEquivalent(TermText(t), TermText(order[i]));
        assert Elements(findings + [finding]) == Elements(findings) + {finding};
        findings := findings + [finding];
      }
    }
    assert order[..|order|] == order;
  }

  method ReplacementFindingsOf(ontology: Graph, required: bool, rg: ReplacementGraph, t: Term)
    returns (findings: seq<Finding>)
    ensures Elements(findings) == ReplacementItem(ontology, required, rg, t)
  {
    findings := [];
    if required && Get(rg, t) == {} {
      findings := findings + [DeprecatedReplacementMissing(TermText(t))];
    }
    if t in Get(rg, t) {
      findings := findings + [DeprecatedSelfReplacement(TermText(t))];
    }
    var equal := EquivalentReplacements(ontology, t, Get(rg, t));
    assert Elements(findings + equal) == Elements(findings) + Elements(equal);
    findings := findings + equal;
  }

  method ReplacementFindings(ontology: Graph, required: bool, rg: ReplacementGraph) returns (findings: seq<Finding>)
    ensures Elements(findings) == Collect(rg.Keys, t => ReplacementItem(ontology, required, rg, t))
  {
    ghost var item := t => ReplacementItem(ontology, required, rg, t);
    findings := [];
    var order := Enumerate(rg.Keys);
    for i := 0 to |order|
      invariant Elements(findings) == Collect(Elements(order[..i]), item)
    {
      CollectStep(order, i, item);
      var found := ReplacementFindingsOf(ontology, required, rg, order[i]);
      AppendElements(findings, found);
      findings := findings + found;
    }
    CollectDone(order, item);
  }

  method ChainFindingsOf(rg: ReplacementGraph, deprecated: set<Term>, t: Term) returns (findings: seq<Finding>)
    ensures Elements(findings) == ChainItem(rg, deprecated, t)
  {
    findings := [];
    var onCycle := HasReplacementCycle(rg, t);
    if onCycle {
      findings := findings + [DeprecatedReplacementCycle(TermText(t))];
    }
    var hasTerminal := FindTerminal(rg, deprecated, t);
    if Get(rg, t) != {} && !hasTerminal {
      findings := findings + [DeprecatedReplacementTerminalMissing(TermText(t))];
    }
  }

  method ChainFindings(rg: ReplacementGraph, deprecated: set<Term>) returns (findings: seq<Finding>)
    ensures Elements(findings) == Collect(deprecated, t => ChainItem(rg, deprecated, t))
  {
    ghost var item := t => ChainItem(rg, deprecated, t);
    findings := [];
    var order := Enumerate(deprecated);
    for i := 0 to |order|
      invariant Elements(findings) == Collect(Elements(order[..i]), item)
    {
      CollectStep(order, i, item);
      var found := ChainFindingsOf(rg, deprecated, order[i]);
      AppendElements(findings, found);
      findings := findings + found;
    }
    CollectDone(order, item);
  }

  // ----- the whole schema check

  function DeclarationChecks(ontology: Graph, schema: Graph, ns: string, config: Config): set<Finding> {
    (if exists t :: t in schema && t.p == OWL_IMPORTS then {OwlImportsProhibited} else {})
    + KindFindings(ontology, ns)
    + (if config.requireExplicitDomainRangeTypes
       then set t, f | t in LocalProperties(ontology, ns) && f in DeclarationFindings(ontology, schema, ns, t) :: f
       else {})
    + (if config.prohibitLocalEquivalence then LocalEquivalenceFindings(ontology, ns) else {})
    + MarkerFindings(ontology)
  }

  const CLASS_CLASH := (left: string, right: string) => EquivalentDisjointClass(left, right)
  const PROPERTY_CLASH := (left: string, right: string) => EquivalentDisjointProperty(left, right)

  ghost predicate SchemaListsDecode(schema: Graph) {
    && AllHoldLists(schema, Heads(schema, OWL_ALL_DISJOINT_CLASSES, {OWL_MEMBERS}))
    && AllHoldLists(schema, Heads(schema, OWL_ALL_DISJOINT_PROPERTIES, {OWL_MEMBERS}))
  }

  /** The findings that the schema check reports. */
  ghost predicate IsSchemaFinding(ontology: Graph, schema: Graph, ns: string, config: Config, f: Finding) {
    var rg := ReplacementGraphOf(ontology);
    || f in DeclarationChecks(ontology, schema, ns, config)
    || IsClash(schema, OWL_DISJOINT_WITH, OWL_ALL_DISJOINT_CLASSES, OWL_EQUIVALENT_CLASS, CLASS_CLASH, f)
    || IsClash(schema, OWL_PROPERTY_DISJOINT_WITH, OWL_ALL_DISJOINT_PROPERTIES, OWL_EQUIVALENT_PROPERTY, PROPERTY_CLASH,
      f)
    || f in Collect(Deprecated(ontology), t => ReplacementItem(ontology, config.requireDeprecatedReplacement, rg, t))
    || f in Collect(Deprecated(ontology), t => ChainItem(rg, Deprecated(ontology), t))
  }

  method SchemaFindings(ontology: Graph, schema: Graph, ns: string, config: Config)
    returns (r: Result<seq<Finding>, ListError>)
    ensures r.Ok? <==> SchemaListsDecode(schema)
    ensures r.Ok? ==> forall f :: f in r.value <==> IsSchemaFinding(ontology, schema, ns, config, f)
  {
    var declarations := Enumerate(DeclarationChecks(ontology, schema, ns, config));
    var classes :=
      ClashFindings(schema, OWL_DISJOINT_WITH, OWL_ALL_DISJOINT_CLASSES, OWL_EQUIVALENT_CLASS, CLASS_CLASH);
    if classes.Err? {
      return classes;
    }
    var properties := ClashFindings(schema, OWL_PROPERTY_DISJOINT_WITH, OWL_ALL_DISJOINT_PROPERTIES,
      OWL_EQUIVALENT_PROPERTY, PROPERTY_CLASH);
    if properties.Err? {
      return properties;
    }
    var replacements :=
      ReplacementFindings(ontology, config.requireDeprecatedReplacement, ReplacementGraphOf(ontology));
    var chains := ChainFindings(ReplacementGraphOf(ontology), Deprecated(ontology));
    var findings := declarations + classes.value + properties.value + replacements + chains;
    forall f
      ensures f in findings <==> IsSchemaFinding(ontology, schema, ns, config, f)
    {
      assert f in declarations <==> f in Elements(declarations);
      assert f in replacements <==> f in Elements(replacements);
      assert f in chains <==> f in Elements(chains);
    }
    return Ok(findings);
  }

  // ----- what a silent check means

  /** Every local property has a named domain that is no datatype and a named range of its kind. */
  ghost predicate WellDeclared(ontology: Graph, schema: Graph, ns: string, t: Term) {
    && (exists d: Term :: d.IRI? && Triple(t, RDFS_DOMAIN, d) in ontology)
    && (exists r: Term :: r.IRI? && Triple(t, RDFS_RANGE, r) in ontology)
    && (forall d: Term | d.IRI? && Triple(t, RDFS_DOMAIN, d) in ontology :: !IsDatatypeName(d))
    && (forall r: Term | r.IRI? && Triple(t, RDFS_RANGE, r) in ontology ::
          && (t in LocalSubjects(ontology, OWL_OBJECT_PROPERTY, ns) ==> !IsDatatype(schema, r))
          && (t in LocalSubjects(ontology, OWL_DATATYPE_PROPERTY, ns) ==> IsDatatype(schema, r)))
  }

  lemma DeclarationSilent(ontology: Graph, schema: Graph, ns: string, t: Term)
    ensures DeclarationFindings(ontology, schema, ns, t) == {} <==> WellDeclared(ontology, schema, ns, t)
  {
    var domains := Named(Objects(ontology, t, RDFS_DOMAIN));
    var ranges := Named(Objects(ontology, t, RDFS_RANGE));
    forall d
      ensures d in domains <==> d.IRI? && Triple(t, RDFS_DOMAIN, d) in ontology
    {
      ObjectsMember(ontology, t, RDFS_DOMAIN, d);
    }
    forall r
      ensures r in ranges <==> r.IRI? && Triple(t, RDFS_RANGE, r) in ontology
    {
      ObjectsMember(ontology, t, RDFS_RANGE, r);
    }
    var found := DeclarationFindings(ontology, schema, ns, t);
    if found == {} {
      forall d | d in domains
        ensures !IsDatatypeName(d)
      {
        assert PropertyDomainNotClass(TermText(t), TermText(d)) !in found;
      }
      forall r | r in ranges
        ensures t in LocalSubjects(ontology, OWL_OBJECT_PROPERTY, ns) ==> !IsDatatype(schema, r)
        ensures t in LocalSubjects(ontology, OWL_DATATYPE_PROPERTY, ns) ==> IsDatatype(schema, r)
      {
        assert ObjectPropertyDatatypeRange(TermText(t), TermText(r)) !in found;
        assert DatatypePropertyResourceRange(TermText(t), TermText(r)) !in found;
      }
      assert domains != {} by {
        assert SchemaDomainMissing(TermText(t)) !in found;
      }
      assert ranges != {} by {
        assert SchemaRangeMissing(TermText(t)) !in found;
      }
    }
  }

  ghost predicate DeclarationsSound(ontology: Graph, schema: Graph, ns: string, config: Config) {
    && (forall t | t in schema :: t.p != OWL_IMPORTS)
    && LocalSubjects(ontology, OWL_OBJECT_PROPERTY, ns) !! LocalSubjects(ontology, OWL_DATATYPE_PROPERTY, ns)
    && (config.requireExplicitDomainRangeTypes ==>
          forall t | t in LocalProperties(ontology, ns) :: WellDeclared(ontology, schema, ns, t))
    && (config.prohibitLocalEquivalence ==> forall t | t in ontology :: !IsLocalEquivalence(ns, t))
    && (forall t | t in ontology && t.p == OWL_DEPRECATED :: IsTrueBoolean(t.o) || IsFalseBoolean(t.o))
  }

  lemma DeclarationsSilent(ontology: Graph, schema: Graph, ns: string, config: Config)
    ensures DeclarationChecks(ontology, schema, ns, config) == {} <==> DeclarationsSound(ontology, schema, ns, config)
  {
    var found := DeclarationChecks(ontology, schema, ns, config);
    forall t
      ensures DeclarationFindings(ontology, schema, ns, t) == {} <==> WellDeclared(ontology, schema, ns, t)
    {
      DeclarationSilent(ontology, schema, ns, t);
    }
    if found == {} {
      assert KindFindings(ontology, ns) == {} && MarkerFindings(ontology) == {};
      forall t | t in LocalSubjects(ontology, OWL_OBJECT_PROPERTY, ns)
        ensures t !in LocalSubjects(ontology, OWL_DATATYPE_PROPERTY, ns)
      {
        assert PropertyKindContradiction(TermText(t)) !in KindFindings(ontology, ns);
      }
      if config.requireExplicitDomainRangeTypes {
        forall t | t in LocalProperties(ontology, ns)
          ensures WellDeclared(ontology, schema, ns, t)
        {
          assert forall f | f in DeclarationFindings(ontology, schema, ns, t) :: f in found;
        }
      }
      if config.prohibitLocalEquivalence {
        forall t | t in ontology
          ensures !IsLocalEquivalence(ns, t)
        {
          assert LocalEquivalenceProhibited(TermText(t.s), Str(t.p), TermText(t.o)) !in found;
        }
      }
      forall t | t in ontology && t.p == OWL_DEPRECATED
        ensures IsTrueBoolean(t.o) || IsFalseBoolean(t.o)
      {
        assert DeprecatedMarkerInvalid(TermText(t.s), TermText(t.o)) !in MarkerFindings(ontology);
      }
    }
  }

  /** No deprecated term lies on a replacement cycle or is equivalent to a replacement of
      its own, and each has a replacement (where one is required) or, if it has any, one
      chain that leads to a term in use. */
  ghost predicate ReplacementsSound(ontology: Graph, required: bool) {
    var rg, deprecated := ReplacementGraphOf(ontology), Deprecated(ontology);
    && NoCycles(rg, deprecated)
    && (forall t, r | t in deprecated && r in Get(rg, t) :: !SomehowEquivalent(ontology, t, r))
    && (if required then AllReplaced(rg, deprecated)
        else forall t | t in deprecated :: !TerminalMissing(rg, deprecated, t))
  }

  ghost predicate ChoicesSound(ontology: Graph, required: bool, rg: ReplacementGraph, t: Term) {
    && (required ==> Get(rg, t) != {})
    && forall r | r in Get(rg, t) :: !SomehowEquivalent(ontology, t, r)
  }

  lemma ChoicesSilent(ontology: Graph, required: bool, rg: ReplacementGraph, deprecated: set<Term>)
    ensures Collect(deprecated, t => ReplacementItem(ontology, required, rg, t)) == {}
       <==> forall t | t in deprecated :: ChoicesSound(ontology, required, rg, t)
  {
    CollectEmpty(deprecated, t => ReplacementItem(ontology, required, rg, t));
    forall t
      ensures ReplacementItem(ontology, required, rg, t) == {} <==> ChoicesSound(ontology, required, rg, t)
    {
      ReplacementItemSilent(ontology, required, rg, t);
    }
  }

  lemma ChainsSilent(rg: ReplacementGraph, deprecated: set<Term>)
    ensures Collect(deprecated, t => ChainItem(rg, deprecated, t)) == {}
       <==> NoCycles(rg, deprecated) && forall t | t in deprecated :: !TerminalMissing(rg, deprecated, t)
  {
    CollectEmpty(deprecated, t => ChainItem(rg, deprecated, t));
    forall t
      ensures ChainItem(rg, deprecated, t) == {} <==> !OnCycle(EdgesOf(rg), t) && !TerminalMissing(rg, deprecated, t)
    {
    }
  }

  /** Where a replacement is required, the terminal check adds nothing to the other checks;
      the self-replacement check never does. */
  lemma ReplacementsSilent(ontology: Graph, required: bool)
    ensures var rg, deprecated := ReplacementGraphOf(ontology), Deprecated(ontology);
            (&& Collect(deprecated, t => ReplacementItem(ontology, required, rg, t)) == {}
             && Collect(deprecated, t => ChainItem(rg, deprecated, t)) == {})
            <==> ReplacementsSound(ontology, required)
  {
    var rg, deprecated := ReplacementGraphOf(ontology), Deprecated(ontology);
    ChoicesSilent(ontology, required, rg, deprecated);
    ChainsSilent(rg, deprecated);
    if required && NoCycles(rg, deprecated) && AllReplaced(rg, deprecated) {
      TerminalNeverMissingAlone(rg, deprecated);
    }
  }

  lemma ReplacementItemSilent(ontology: Graph, required: bool, rg: ReplacementGraph, t: Term)
    ensures ReplacementItem(ontology, required, rg, t) == {} <==> ChoicesSound(ontology, required, rg, t)
  {
    var found := ReplacementItem(ontology, required, rg, t);
    ReachesSelf(SymmetricEdges(ontology, OWL_EQUIVALENT_CLASS), t);
    assert SomehowEquivalent(ontology, t, t);
    if found == {} {
      forall r | r in Get(rg, t)
        ensures !SomehowEquivalent(ontology, t, r)
      {
        assert DeprecatedReplacementEquivalent(TermText(t), TermText(r)) !in found;
      }
      assert DeprecatedReplacementMissing(TermText(t)) !in found;
    }
  }

  ghost predicate SchemaConsistent(ontology: Graph, schema: Graph, ns: string, config: Config) {
    && DeclarationsSound(ontology, schema, ns, config)
    && DisjointnessSilent(schema, OWL_DISJOINT_WITH, OWL_ALL_DISJOINT_CLASSES, OWL_EQUIVALENT_CLASS)
    && DisjointnessSilent(schema, OWL_PROPERTY_DISJOINT_WITH, OWL_ALL_DISJOINT_PROPERTIES, OWL_EQUIVALENT_PROPERTY)
    && ReplacementsSound(ontology, config.requireDeprecatedReplacement)
  }

  /** The schema check reports nothing exactly on a consistent schema. */
  lemma SchemaVerdict(ontology: Graph, schema: Graph, ns: string, config: Config)
    ensures (forall f :: !IsSchemaFinding(ontology, schema, ns, config, f))
       <==> SchemaConsistent(ontology, schema, ns, config)
  {
    DeclarationsSilent(ontology, schema, ns, config);
    ClashSilent(schema, OWL_DISJOINT_WITH, OWL_ALL_DISJOINT_CLASSES, OWL_EQUIVALENT_CLASS, CLASS_CLASH);
    ClashSilent(schema, OWL_PROPERTY_DISJOINT_WITH, OWL_ALL_DISJOINT_PROPERTIES, OWL_EQUIVALENT_PROPERTY,
      PROPERTY_CLASH);
    ReplacementsSilent(ontology, config.requireDeprecatedReplacement);
    var rg := ReplacementGraphOf(ontology);
    var replaced :=
      Collect(Deprecated(ontology), t => ReplacementItem(ontology, config.requireDeprecatedReplacement, rg, t));
    var chains := Collect(Deprecated(ontology), t => ChainItem(rg, Deprecated(ontology), t));
    var checks := DeclarationChecks(ontology, schema, ns, config);
    if forall f :: !IsSchemaFinding(ontology, schema, ns, config, f) {
      assert checks == {} by {
        if f :| f in checks { assert IsSchemaFinding(ontology, schema, ns, config, f); }
      }
      assert replaced == {} by {
        if f :| f in replaced { assert IsSchemaFinding(ontology, schema, ns, config, f); }
      }
      assert chains == {} by {
        if f :| f in chains { assert IsSchemaFinding(ontology, schema, ns, config, f); }
      }
      forall f
        ensures !IsClash(schema, OWL_DISJOINT_WITH, OWL_ALL_DISJOINT_CLASSES, OWL_EQUIVALENT_CLASS, CLASS_CLASH, f)
        ensures !IsClash(schema, OWL_PROPERTY_DISJOINT_WITH, OWL_ALL_DISJOINT_PROPERTIES, OWL_EQUIVALENT_PROPERTY,
          PROPERTY_CLASH, f)
      {
        assert !IsSchemaFinding(ontology, schema, ns, config, f);
      }
    }
  }
}
