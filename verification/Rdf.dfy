/** RDF terms and finite graphs, with the part of the rdflib vocabulary that the
    profile tools read. */
module Rdf {
  import opened Wrappers

  /** An RDF term. `illTyped` is rdflib's own verdict on a literal's lexical form. */
  datatype Term =
    | IRI(value: string)
    | BNode(id: string)
    | Literal(lexical: string, datatypeIri: Option<string>, language: Option<string>, illTyped: bool)

  datatype Triple = Triple(s: Term, p: Term, o: Term)

  type Graph = set<Triple>

  const RDF_NS := "http://www.w3.org/1999/02/22-rdf-syntax-ns#"
  const RDFS_NS := "http://www.w3.org/2000/01/rdf-schema#"
  const OWL_NS := "http://www.w3.org/2002/07/owl#"
  const XSD_NS := "http://www.w3.org/2001/XMLSchema#"
  const SH_NS := "http://www.w3.org/ns/shacl#"
  const DCAT_NS := "http://www.w3.org/ns/dcat#"

  const RDF_FIRST := IRI(RDF_NS + "first")
  const RDF_REST := IRI(RDF_NS + "rest")
  const RDF_NIL := IRI(RDF_NS + "nil")
  const RDF_TYPE := IRI(RDF_NS + "type")
  const RDF_LANG_STRING := IRI(RDF_NS + "langString")

  function Objects(g: Graph, s: Term, p: Term): set<Term> {
    set t | t in g && t.s == s && t.p == p :: t.o
  }

  function Subjects(g: Graph, p: Term, o: Term): set<Term> {
    set t | t in g && t.p == p && t.o == o :: t.s
  }

  function SubjectObjects(g: Graph, p: Term): set<(Term, Term)> {
    set t | t in g && t.p == p :: (t.s, t.o)
  }

  lemma ObjectsMember(g: Graph, s: Term, p: Term, o: Term)
    ensures o in Objects(g, s, p) <==> Triple(s, p, o) in g
  {
  }

  lemma SubjectsMember(g: Graph, p: Term, o: Term, s: Term)
    ensures s in Subjects(g, p, o) <==> Triple(s, p, o) in g
  {
  }

  lemma SubjectObjectsMember(g: Graph, p: Term, s: Term, o: Term)
    ensures (s, o) in SubjectObjects(g, p) <==> Triple(s, p, o) in g
  {
  }

  /** rdflib's `str(term)`. */
  function Str(t: Term): string {
    match t
    case IRI(value) => value
    case BNode(id) => id
    case Literal(lexical, _, _, _) => lexical
  }

  /** Python's truth test on an optional string. */
  predicate Truthy(text: Option<string>) {
    text.Some? && text.value != ""
  }

  /** How a finding writes a term; every blank node reads the same. */
  function TermText(t: Term): string {
    match t
    case Literal(lexical, datatypeIri, language, _) =>
      if Truthy(language) then "\"" + lexical + "\"@" + language.value
      else if Truthy(datatypeIri) then "\"" + lexical + "\"^^<" + datatypeIri.value + ">"
      else "\"" + lexical + "\""
    case BNode(_) => "_:blank"
    case IRI(value) => value
  }

  predicate StartsWith(text: string, prefix: string) {
    prefix <= text
  }
}
