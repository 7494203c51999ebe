/** The gate's findings, and sets of findings gathered item by item. */
module Findings {
  import opened Rdf
  import opened Enumeration

  /** One constructor per finding code and message; the fields are the recorded details. */
  datatype Finding =
    // schema_consistency_findings
    | OwlImportsProhibited
    | PropertyKindContradiction(term: string)
    | SchemaDomainMissing(term: string)
    | SchemaRangeMissing(term: string)
    | PropertyDomainNotClass(term: string, domain: string)
    | ObjectPropertyDatatypeRange(term: string, range: string)
    | DatatypePropertyResourceRange(term: string, range: string)
    | LocalEquivalenceProhibited(subject: string, predicateText: string, objectText: string)
    | EquivalentDisjointClass(left: string, right: string)
    | EquivalentDisjointProperty(left: string, right: string)
    | DeprecatedMarkerInvalid(term: string, value: string)
    | DeprecatedReplacementMissing(term: string)
    | DeprecatedSelfReplacement(term: string)
    | DeprecatedReplacementEquivalent(term: string, replacement: string)
    | DeprecatedReplacementCycle(term: string)
    | DeprecatedReplacementTerminalMissing(term: string)
    // local_property_findings
    | UndeclaredLocalProperty(dataset: string, predicateText: string)
    | LocalDomainMissing(dataset: string, predicateText: string)
    | DomainTypeMismatch(dataset: string, predicateText: string, subject: string, expected: string)
    | ObjectPropertyLiteral(dataset: string, predicateText: string, value: string)
    | ObjectRangeMissing(dataset: string, predicateText: string)
    | RangeTypeMismatch(dataset: string, predicateText: string, value: string, expected: string)
    | DatatypePropertyResource(dataset: string, predicateText: string, value: string)
    | DatatypeRangeMissing(dataset: string, predicateText: string)
    | DatatypeRangeMismatch(dataset: string, predicateText: string, value: string, expected: string)
    // closure_consistency_findings and run_gate
    | OwlRlRuleError(dataset: string, message: string)
    | OwlNothingInstance(dataset: string, resource: string)
    | DisjointClassInstance(dataset: string, resource: string, left: string, right: string)
    | DisjointPropertyAssertion(dataset: string, subject: string, value: string, left: string, right: string)
    | SameAndDifferentResource(dataset: string, left: string, right: string)
    | AllDifferentSameAs(dataset: string, left: string, right: string)
    | DeprecatedClassInFixture(dataset: string, term: string, subject: string)
    | DeprecatedPropertyInFixture(dataset: string, term: string, subject: string, value: string)
    | DeprecatedResourceInFixture(dataset: string, term: string, subject: string, predicateText: string)

  /** Everything that `item` yields for a member of `done`. */
  ghost function Collect<T, F>(done: set<T>, item: T -> set<F>): set<F> {
    set t, f | t in done && f in item(t) :: f
  }

  /** A loop that visits a set item by item collects the items' findings. */
  lemma CollectStep<T, F>(order: seq<T>, i: nat, item: T -> set<F>)
    requires i < |order|
    ensures Collect(Elements(order[..i + 1]), item) == Collect(Elements(order[..i]), item) + item(order[i])
  {
  }

  lemma CollectEmpty<T, F>(s: set<T>, item: T -> set<F>)
    ensures Collect(s, item) == {} <==> forall t | t in s :: item(t) == {}
  {
  }

  lemma CollectDone<T, F>(order: seq<T>, item: T -> set<F>)
    ensures Collect(Elements(order[..|order|]), item) == Collect(Elements(order), item)
  {
  }
}
