/** The vocabulary: every name that the tools read, by the text of its IRI. */
module Vocabulary {
  import opened Wrappers
  import opened Rdf
  import opened Equivalence
  import opened Disjointness
  import opened ResultPath
  import Subclass
  import Schema = SchemaConsistency
  import Local = LocalProperties
  import Closure = ClosureConsistency
  import ResultRecord
  import ResultEvidence
  import ShapeRequirements

  function RdfName(name: string): Term {
    IRI("http://www.w3.org/1999/02/22-rdf-syntax-ns#" + name)
  }

  function RdfsName(name: string): Term {
    IRI("http://www.w3.org/2000/01/rdf-schema#" + name)
  }

  function OwlName(name: string): Term {
    IRI("http://www.w3.org/2002/07/owl#" + name)
  }

  function XsdName(name: string): Term {
    IRI("http://www.w3.org/2001/XMLSchema#" + name)
  }

  function ShaclName(name: string): Term {
    IRI("http://www.w3.org/ns/shacl#" + name)
  }

  function DcatName(name: string): Term {
    IRI("http://www.w3.org/ns/dcat#" + name)
  }

  lemma RdfTexts()
    ensures RDF_FIRST == RdfName("first")
    ensures RDF_REST == RdfName("rest")
    ensures RDF_NIL == RdfName("nil")
    ensures RDF_TYPE == RdfName("type")
    ensures RDF_LANG_STRING == RdfName("langString")
  {
  }

  lemma RdfsTexts()
    ensures Schema.RDFS_DOMAIN == RdfsName("domain")
    ensures Schema.RDFS_RANGE == RdfsName("range")
    ensures Schema.RDFS_LITERAL == RdfsName("Literal")
    ensures Schema.RDFS_DATATYPE == RdfsName("Datatype")
    ensures Subclass.RDFS_SUB_CLASS_OF == RdfsName("subClassOf")
    ensures Subclass.RDFS_RESOURCE == RdfsName("Resource")
  {
  }

  lemma OwlTexts()
    ensures OWL_EQUIVALENT_CLASS == OwlName("equivalentClass")
    ensures OWL_EQUIVALENT_PROPERTY == OwlName("equivalentProperty")
    ensures OWL_SAME_AS == OwlName("sameAs")
    ensures OWL_DISJOINT_WITH == OwlName("disjointWith")
    ensures OWL_PROPERTY_DISJOINT_WITH == OwlName("propertyDisjointWith")
    ensures OWL_ALL_DISJOINT_CLASSES == OwlName("AllDisjointClasses")
    ensures OWL_ALL_DISJOINT_PROPERTIES == OwlName("AllDisjointProperties")
    ensures OWL_MEMBERS == OwlName("members")
  {
  }

  lemma OntologyTexts()
    ensures Schema.OWL_IMPORTS == OwlName("imports")
    ensures Schema.OWL_OBJECT_PROPERTY == OwlName("ObjectProperty")
    ensures Schema.OWL_DATATYPE_PROPERTY == OwlName("DatatypeProperty")
    ensures Local.OWL_ANNOTATION_PROPERTY == OwlName("AnnotationProperty")
    ensures Schema.OWL_DEPRECATED == OwlName("deprecated")
    ensures Schema.DCT_IS_REPLACED_BY == IRI("http://purl.org/dc/terms/isReplacedBy")
  {
  }

  lemma ClosureTexts()
    ensures Closure.OWL_NOTHING == OwlName("Nothing")
    ensures Closure.OWL_DIFFERENT_FROM == OwlName("differentFrom")
    ensures Closure.OWL_ALL_DIFFERENT == OwlName("AllDifferent")
    ensures Closure.OWL_DISTINCT_MEMBERS == OwlName("distinctMembers")
  {
  }

  lemma DatatypeTexts()
    ensures Subclass.XSD_STRING == XsdName("string")
    ensures Subclass.XSD_HEX_BINARY == XsdName("hexBinary")
    ensures XSD_NS == "http://www.w3.org/2001/XMLSchema#"
  {
  }

  lemma ResourceTexts()
    ensures Subclass.DCAT_RESOURCE == DcatName("Resource")
    ensures Subclass.DCAT_RESOURCE_TYPES == {
      DcatName("Catalog"), DcatName("Dataset"), DcatName("DatasetSeries"), DcatName("DataService"),
      DcatName("Resource") }
  {
  }

  lemma ResultTexts()
    ensures ResultEvidence.SH_RESULT == ShaclName("result")
    ensures ResultRecord.SH_SOURCE_SHAPE == ShaclName("sourceShape")
    ensures ResultRecord.SH_FOCUS_NODE == ShaclName("focusNode")
    ensures ResultRecord.SH_RESULT_PATH == ShaclName("resultPath")
    ensures ResultRecord.SH_VALUE == ShaclName("value")
    ensures ResultRecord.SH_RESULT_SEVERITY == ShaclName("resultSeverity")
    ensures ResultRecord.SH_SOURCE_CONSTRAINT_COMPONENT == ShaclName("sourceConstraintComponent")
  {
  }

  lemma RequirementTexts()
    ensures ShapeRequirements.MOLIT_REQUIREMENT_ID == IRI("https://data.molit.go.kr/def/molit-dcat-ap#requirementId")
    ensures ShapeRequirements.CONTAINMENT_PREDICATES == {
      RdfName("first"), RdfName("rest"), ShaclName("and"), ShaclName("condition"), ShaclName("node"), ShaclName("not"),
      ShaclName("or"), ShaclName("property"), ShaclName("qualifiedValueShape"), ShaclName("xone") }
  {
  }

  lemma PathTexts()
    ensures OperatorPredicate(Inverse) == ShaclName("inversePath")
    ensures OperatorPredicate(ZeroOrMore) == ShaclName("zeroOrMorePath")
    ensures OperatorPredicate(OneOrMore) == ShaclName("oneOrMorePath")
    ensures OperatorPredicate(ZeroOrOne) == ShaclName("zeroOrOnePath")
    ensures SH_ALTERNATIVE_PATH == ShaclName("alternativePath")
  {
  }

  // ----- how terms are written

  /** The text of a term in a finding: the IRI, one text for all blank nodes, and a quoted literal with
      its language or, without one, its datatype. */
  lemma TermsInText(value: string, text: string, ill: bool)
    ensures TermText(IRI(value)) == value && TermText(BNode(value)) == "_:blank"
    ensures TermText(Literal(value, None, None, ill)) == "\"" + value + "\""
    ensures TermText(Literal(value, Some(""), None, ill)) == TermText(Literal(value, None, Some(""), ill))
      == "\"" + value + "\""
    ensures forall d :: text != "" ==> TermText(Literal(value, d, Some(text), ill)) == "\"" + value + "\"@" + text
    ensures text != "" ==> TermText(Literal(value, Some(text), None, ill)) == "\"" + value + "\"^^<" + text + ">"
    ensures text != "" ==> TermText(Literal(value, Some(text), Some(""), ill)) == "\"" + value + "\"^^<" + text + ">"
    ensures Str(IRI(value)) == Str(BNode(value)) == value
    ensures forall d, l :: Str(Literal(value, d, l, ill)) == value
  {
  }
}
