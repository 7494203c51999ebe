/** The evidence of a report read off its triples: which results are counted, under which
    requirement identifiers, and what each record holds. */
module EvidenceReading {
  import opened Wrappers
  import opened Rdf
  import opened Enumeration
  import opened Sorting
  import opened Walks
  import opened PosixPath
  import opened ResultPath
  import opened ShapeRequirements
  import opened ResultRecord
  import opened ResultEvidence
  import opened Vocabulary

  ghost predicate IsResult(report: Graph, n: Term) {
    exists r :: Triple(r, ShaclName("result"), n) in report
  }

  lemma ResultsByTriples(report: Graph, n: Term)
    ensures n in Results(report) <==> IsResult(report, n)
  {
    ResultTexts();
    if t :| t in report && t.p == SH_RESULT && t.o == n {
      assert t == Triple(t.s, ShaclName("result"), n);
    }
  }

  // ----- requirement identifiers

  predicate IsContainment(p: Term) {
    || p == RdfName("first") || p == RdfName("rest")
    || p == ShaclName("and") || p == ShaclName("condition") || p == ShaclName("node") || p == ShaclName("not")
    || p == ShaclName("or") || p == ShaclName("property") || p == ShaclName("qualifiedValueShape")
    || p == ShaclName("xone")
  }

  ghost predicate ContainedIn(shapes: Graph, inner: Term, outer: Term) {
    exists p :: IsContainment(p) && Triple(outer, p, inner) in shapes
  }

  /** From a shape outwards, one containment triple after the other. */
  ghost predicate ContainerChain(shapes: Graph, c: seq<Term>, shape: Term, node: Term) {
    && |c| > 0 && c[0] == shape && c[|c| - 1] == node
    && forall i: nat | i + 1 < |c| :: ContainedIn(shapes, c[i], c[i + 1])
  }

  /** The shape or a node that contains it carries the identifier. */
  ghost predicate Inherits(shapes: Graph, shape: Term, id: string) {
    exists c, node, literal: Term ::
      && ContainerChain(shapes, c, shape, node) && literal.Literal? && literal.lexical == id
      && Triple(node, IRI("https://data.molit.go.kr/def/molit-dcat-ap#requirementId"), literal) in shapes
  }

  lemma ContainmentByTriples(shapes: Graph, inner: Term, outer: Term)
    ensures (inner, outer) in ContainerEdges(shapes) <==> ContainedIn(shapes, inner, outer)
  {
    RequirementTexts();
    if t :| t in shapes && t.p in CONTAINMENT_PREDICATES && (t.o, t.s) == (inner, outer) {
      assert IsContainment(t.p) && t == Triple(outer, t.p, inner);
    }
    if p :| IsContainment(p) && Triple(outer, p, inner) in shapes {
      assert p in CONTAINMENT_PREDICATES;
      var t := Triple(outer, p, inner);
      assert (t.o, t.s) in ContainerEdges(shapes);
    }
  }

  lemma ChainsByTriples(shapes: Graph, c: seq<Term>, shape: Term, node: Term)
    ensures WalkBetween(ContainerEdges(shapes), c, shape, node) <==> ContainerChain(shapes, c, shape, node)
  {
    forall i: nat | i + 1 < |c|
      ensures Link(ContainerEdges(shapes), c, i) <==> ContainedIn(shapes, c[i], c[i + 1])
    {
      ContainmentByTriples(shapes, c[i], c[i + 1]);
    }
  }

  lemma InheritedByTriples(shapes: Graph, shape: Term, id: string)
    ensures id in InheritedIds(shapes, shape) <==> Inherits(shapes, shape, id)
  {
    RequirementTexts();
    if t :| t in shapes && t.p == MOLIT_REQUIREMENT_ID && t.o.Literal?
            && Reaches(ContainerEdges(shapes), shape, t.s) && Str(t.o) == id {
      var c :| WalkBetween(ContainerEdges(shapes), c, shape, t.s);
      ChainsByTriples(shapes, c, shape, t.s);
      assert t == Triple(t.s, MOLIT_REQUIREMENT_ID, t.o);
    }
    if c, node, literal: Term :|
        && ContainerChain(shapes, c, shape, node) && literal.Literal? && literal.lexical == id
        && Triple(node, IRI("https://data.molit.go.kr/def/molit-dcat-ap#requirementId"), literal) in shapes {
      ChainsByTriples(shapes, c, shape, node);
      var t := Triple(node, MOLIT_REQUIREMENT_ID, literal);
      assert t in shapes && Reaches(ContainerEdges(shapes), shape, t.s) && Str(t.o) == id;
    }
  }

  /** Some source shape of the result inherits the identifier. */
  ghost predicate Requires(report: Graph, shapes: Graph, n: Term, id: string) {
    exists shape :: Triple(n, ShaclName("sourceShape"), shape) in report && Inherits(shapes, shape, id)
  }

  lemma RequirementsByTriples(report: Graph, shapes: Graph, n: Term, id: string)
    ensures id in ResultIds(report, shapes, n) <==> Requires(report, shapes, n, id)
  {
    ResultTexts();
    forall shape
      ensures shape in Objects(report, n, SH_SOURCE_SHAPE) <==> Triple(n, ShaclName("sourceShape"), shape) in report
      ensures id in InheritedIds(shapes, shape) <==> Inherits(shapes, shape, id)
    {
      ObjectsMember(report, n, SH_SOURCE_SHAPE, shape);
      InheritedByTriples(shapes, shape, id);
    }
  }

  // ----- the counts

  /** The results are counted: `resultCount` is the number of values of `sh:result`, each identifier's
      count the number of those that require it, and no other identifier is listed. */
  lemma CountsByTriples(report: Graph, shapes: Graph, data: Graph, digests: Digests, evidence: Evidence, ns: set<Term>)
    requires IsEvidence(report, shapes, data, digests, evidence)
    requires forall n :: n in ns <==> IsResult(report, n)
    ensures evidence.resultCount == |ns|
    ensures forall e: Entry :: e in evidence.requirementIdMultiset <==>
              e.count > 0 && e.count == |Requiring(report, shapes, ns, e.text)|
  {
    forall n
      ensures n in Results(report) <==> n in ns
    {
      ResultsByTriples(report, n);
    }
    assert Results(report) == ns;
    forall e: Entry
      ensures Having(ns, ById(report, shapes), e.text) == Requiring(report, shapes, ns, e.text)
    {
      RequiringByTriples(report, shapes, ns, e.text);
    }
  }

  /** The results that require the identifier. */
  ghost function Requiring(report: Graph, shapes: Graph, ns: set<Term>, id: string): set<Term> {
    set n | n in ns && Requires(report, shapes, n, id)
  }

  lemma RequiringByTriples(report: Graph, shapes: Graph, ns: set<Term>, id: string)
    ensures Having(ns, ById(report, shapes), id) == Requiring(report, shapes, ns, id)
  {
    forall n
      ensures id in ResultIds(report, shapes, n) <==> Requires(report, shapes, n, id)
    {
      RequirementsByTriples(report, shapes, n, id);
    }
  }

  ghost function DigestedAs(digest: Record -> string, records: map<Term, Record>, text: string): set<Term> {
    set n | n in records && digest(records[n]) == text
  }

  /** A record for every result, and for each digest the number of those that have it. */
  ghost predicate CountsDigests(report: Graph, shapes: Graph, data: Graph, digests: Digests, ns: set<Term>,
        records: map<Term, Record>, counts: seq<Entry>)
  {
    && records.Keys == ns && (forall n | n in ns :: IsRecord(report, shapes, data, digests.json, n, records[n]))
    && forall e: Entry :: e in counts <==> e.count > 0 && e.count == |DigestedAs(digests.record, records, e.text)|
  }

  lemma DigestedByTriples(digest: Record -> string, records: map<Term, Record>, text: string)
    ensures Having(records.Keys, BySignature(Signatures(digest, records)), text) == DigestedAs(digest, records, text)
  {
  }

  /** Every result has a record of its own, and digests of records are counted with repetitions. */
  lemma DigestsByTriples(report: Graph, shapes: Graph, data: Graph, digests: Digests, evidence: Evidence, ns: set<Term>)
    requires IsEvidence(report, shapes, data, digests, evidence)
    requires forall n :: n in ns <==> IsResult(report, n)
    ensures exists records :: CountsDigests(report, shapes, data, digests, ns, records, evidence.resultMultiset)
  {
    forall n
      ensures n in Results(report) <==> n in ns
    {
      ResultsByTriples(report, n);
    }
    assert Results(report) == ns;
    var records: map<Term, Record> :|
      && records.Keys == Results(report) && AreRecords(report, shapes, data, digests.json, records)
      && CountsRecords(report, shapes, digests, records, evidence);
    forall e: Entry
      ensures e in evidence.resultMultiset <==>
                e.count > 0 && e.count == |DigestedAs(digests.record, records, e.text)|
    {
      DigestedByTriples(digests.record, records, e.text);
    }
    assert CountsDigests(report, shapes, data, digests, ns, records, evidence.resultMultiset);
  }

  // ----- the record of a result

  /** An IRI is written in full, any other term by its kind. */
  function Written(t: Term): string {
    if t.IRI? then t.value else if t.BNode? then "[BNode]" else "[Literal]"
  }

  lemma WrittenByKind(t: Term)
    ensures IriOrKind(t) == Written(t)
  {
  }

  ghost predicate IsFocusType(report: Graph, data: Graph, n: Term, text: string) {
    exists focus, t :: Triple(n, ShaclName("focusNode"), focus) in report && Triple(focus, RdfName("type"), t) in data
      && text == Written(t)
  }

  lemma FocusTypesByTriples(report: Graph, data: Graph, n: Term, text: string)
    ensures text in FocusTypes(report, data, n) <==> IsFocusType(report, data, n, text)
  {
    RdfTexts();
    ResultTexts();
    if text in FocusTypes(report, data, n) {
      var focus, t :| focus in Objects(report, n, SH_FOCUS_NODE) && t in Objects(data, focus, RDF_TYPE)
                      && text == IriOrKind(t);
      ObjectsMember(report, n, SH_FOCUS_NODE, focus);
      ObjectsMember(data, focus, RDF_TYPE, t);
      WrittenByKind(t);
    }
    if focus, t :| Triple(n, ShaclName("focusNode"), focus) in report && Triple(focus, RdfName("type"), t) in data
                   && text == Written(t) {
      ObjectsMember(report, n, SH_FOCUS_NODE, focus);
      ObjectsMember(data, focus, RDF_TYPE, t);
      WrittenByKind(t);
    }
  }

  /** A literal keeps its datatype and its language in lower case, and nothing of its lexical form. */
  predicate DescribesValue(t: Term, d: ValueDescriptor) {
    match d
    case IriValue => t.IRI?
    case BlankNodeValue => t.BNode?
    case LiteralValue(datatypeIri, language) =>
      && t.Literal?
      && datatypeIri == (if t.datatypeIri == Some("") then None else t.datatypeIri)
      && language == (if t.language.None? || t.language == Some("") then None else Some(Lower(t.language.value)))
  }

  lemma ValuesByKind(t: Term)
    ensures DescribesValue(t, DescribeValue(t)) && forall d | DescribesValue(t, d) :: d == DescribeValue(t)
  {
  }

  /** The terms that a result names by the SHACL predicate. */
  ghost predicate AreValues(report: Graph, n: Term, name: string, terms: set<Term>) {
    forall t :: t in terms <==> Triple(n, ShaclName(name), t) in report
  }

  /** The list holds each string once for every term that is written so. */
  ghost predicate ListsWritten(terms: set<Term>, list: seq<string>) {
    forall s :: multiset(list)[s] == |WrittenAs(terms, s)|
  }

  ghost function WrittenAs(terms: set<Term>, s: string): set<Term> {
    set t | t in terms && Written(t) == s
  }

  lemma HoldersWritten(items: map<Term, string>, terms: set<Term>, s: string)
    requires ItemsFor(items, terms, IsOf(IriOrKind))
    ensures Holders(items, s) == WrittenAs(terms, s)
  {
    forall t | t in terms
      ensures items[t] == Written(t)
    {
      WrittenByKind(t);
    }
  }

  lemma WrittenList(key: string -> string, terms: set<Term>, list: seq<string>)
    requires SortedList(key, terms, IsOf(IriOrKind), list)
    ensures ListsWritten(terms, list)
  {
    var items: map<Term, string> :| ItemsFor(items, terms, IsOf(IriOrKind)) && Lists(items, list);
    forall s
      ensures multiset(list)[s] == |WrittenAs(terms, s)|
    {
      HoldersWritten(items, terms, s);
    }
  }

  lemma DescribedList(key: ValueDescriptor -> string, terms: set<Term>, list: seq<ValueDescriptor>)
    requires SortedList(key, terms, IsOf(DescribeValue), list)
    ensures forall d :: multiset(list)[d] == |set t | t in terms && DescribesValue(t, d)|
  {
    var items: map<Term, ValueDescriptor> :| ItemsFor(items, terms, IsOf(DescribeValue)) && Lists(items, list);
    forall d
      ensures multiset(list)[d] == |set t | t in terms && DescribesValue(t, d)|
    {
      forall t
        ensures DescribesValue(t, d) <==> d == DescribeValue(t)
      {
        ValuesByKind(t);
      }
      assert Holders(items, d) == set t | t in terms && DescribesValue(t, d);
    }
  }

  lemma PathList(key: Descriptor -> string, gs: seq<Graph>, terms: set<Term>, list: seq<Descriptor>)
    requires SortedList(key, terms, IsPathOf(gs), list)
    ensures Listed(terms, (t, d) => Describes(gs, t, {}, d), list)
  {
    var items: map<Term, Descriptor> :| ItemsFor(items, terms, IsPathOf(gs)) && Lists(items, list);
    assert ItemsFor(items, terms, (t, d) => Describes(gs, t, {}, d));
  }

  lemma ValuesOf(report: Graph, n: Term, name: string, p: Term, terms: set<Term>)
    requires AreValues(report, n, name, terms) && p == ShaclName(name)
    ensures Objects(report, n, p) == terms
  {
    forall t
      ensures t in Objects(report, n, p) <==> t in terms
    {
      ObjectsMember(report, n, p, t);
    }
  }

  /** The record of a result holds what the result's triples say: the types of its focus nodes, the
      identifiers it requires, and its severities, constraint components, values and paths with repetitions,
      the paths decoded with the report's triples first. */
  lemma RecordByTriples(report: Graph, shapes: Graph, data: Graph, json: Json, n: Term, record: Record,
        severities: set<Term>, components: set<Term>, values: set<Term>, paths: set<Term>)
    requires IsRecord(report, shapes, data, json, n, record)
    requires AreValues(report, n, "resultSeverity", severities)
    requires AreValues(report, n, "sourceConstraintComponent", components)
    requires AreValues(report, n, "value", values) && AreValues(report, n, "resultPath", paths)
    ensures forall s :: s in record.focusTypes <==> IsFocusType(report, data, n, s)
    ensures forall s :: s in record.requirementIds <==> Requires(report, shapes, n, s)
    ensures ListsWritten(severities, record.severities) && ListsWritten(components, record.components)
    ensures forall d :: multiset(record.values)[d] == |set t | t in values && DescribesValue(t, d)|
    ensures Listed(paths, (t, d) => Describes([report, shapes], t, {}, d), record.paths)
  {
    ResultTexts();
    forall s
      ensures s in record.focusTypes <==> IsFocusType(report, data, n, s)
      ensures s in record.requirementIds <==> Requires(report, shapes, n, s)
    {
      FocusTypesByTriples(report, data, n, s);
      RequirementsByTriples(report, shapes, n, s);
      assert s in record.focusTypes <==> s in Elements(record.focusTypes);
      assert s in record.requirementIds <==> s in Elements(record.requirementIds);
    }
    ValuesOf(report, n, "resultSeverity", SH_RESULT_SEVERITY, severities);
    ValuesOf(report, n, "sourceConstraintComponent", SH_SOURCE_CONSTRAINT_COMPONENT, components);
    ValuesOf(report, n, "value", SH_VALUE, values);
    ValuesOf(report, n, "resultPath", SH_RESULT_PATH, paths);
    PathList(json.path, [report, shapes], paths, record.paths);
    WrittenList(k => k, severities, record.severities);
    WrittenList(k => k, components, record.components);
    DescribedList(json.value, values, record.values);
  }
}
