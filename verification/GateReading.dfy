/** What a dataset of the gate is checked against, and how rule errors are reported. */
module GateReading {
  import opened Rdf
  import opened Findings
  import opened Gate
  import Schema = SchemaConsistency
  import Local = LocalProperties
  import Closure = ClosureConsistency
  import LocalReading
  import ClosureReading
  import SchemaReading

  predicate IsLocalKind(f: Finding) {
    || f.UndeclaredLocalProperty? || f.LocalDomainMissing? || f.DomainTypeMismatch? || f.ObjectPropertyLiteral?
    || f.ObjectRangeMissing? || f.RangeTypeMismatch? || f.DatatypePropertyResource? || f.DatatypeRangeMissing?
    || f.DatatypeRangeMismatch?
  }

  lemma LocalKinds(ontology: Graph, explicit: Graph, ns: string, dataset: string, t: Triple, f: Finding)
    requires f in Local.TripleItem(ontology, explicit, ns, dataset, t)
    ensures IsLocalKind(f)
  {
  }

  lemma ClosureKinds(closure: Graph, fixture: Graph, deprecated: set<Term>, dataset: string, failOnUse: bool,
        f: Finding)
    requires Closure.IsClosureFinding(closure, fixture, deprecated, dataset, failOnUse, f)
    ensures !IsLocalKind(f) && !f.OwlRlRuleError?
  {
    ClosureReading.ReportedBy(closure, fixture, deprecated, dataset, failOnUse, f);
  }

  /** The local checks of a dataset look up types in base graphs and fixture together, the closure checks
      in the closure; every message of the rule engine is a finding. */
  lemma DatasetReportedBy(reg: Registry, d: Dataset, f: Finding)
    ensures IsDatasetFinding(reg, d, f)
       <==> if IsLocalKind(f) then
              exists t :: t in d.fixture
                && f in Local.TripleItem(reg.ontology, reg.schema + d.fixture, reg.localNamespace, d.id, t)
            else if f.OwlRlRuleError? then f.dataset == d.id && f.message in d.ruleErrors
            else Closure.IsClosureFinding(d.closure, d.fixture, Schema.Deprecated(reg.ontology), d.id,
                   reg.config.failOnDeprecatedFixtureUse, f)
  {
    var item := t => Local.TripleItem(reg.ontology, reg.schema + d.fixture, reg.localNamespace, d.id, t);
    SchemaReading.CollectMember(d.fixture, item, f);
    forall t | f in item(t)
      ensures IsLocalKind(f)
    {
      LocalKinds(reg.ontology, reg.schema + d.fixture, reg.localNamespace, d.id, t, f);
    }
    if Closure.IsClosureFinding(d.closure, d.fixture, Schema.Deprecated(reg.ontology), d.id,
         reg.config.failOnDeprecatedFixtureUse, f) {
      ClosureKinds(d.closure, d.fixture, Schema.Deprecated(reg.ontology), d.id, reg.config.failOnDeprecatedFixtureUse,
        f);
    }
  }

  /** A dataset is consistent exactly if every triple of its fixture that uses a checked property uses it
      as declared and no other local predicate occurs, the rule engine reports nothing, and its closure
      is consistent. */
  lemma DatasetByTriples(reg: Registry, d: Dataset)
    ensures DatasetConsistent(reg, d)
       <==> && (forall t | t in d.fixture ::
                  || !LocalReading.InNamespace(reg.localNamespace, t.p)
                  || LocalReading.Declares(reg.ontology, t.p, "AnnotationProperty")
                  || (&& LocalReading.IsChecked(reg.ontology, reg.localNamespace, t.p)
                      && LocalReading.IsUsedAsDeclared(reg.ontology, reg.schema + d.fixture, t)))
            && d.ruleErrors == []
            && Closure.ClosureConsistent(d.closure, d.fixture, Schema.Deprecated(reg.ontology),
                 reg.config.failOnDeprecatedFixtureUse)
  {
    forall t
      ensures Local.Conforms(reg.ontology, reg.schema + d.fixture, reg.localNamespace, t)
         <==> || !LocalReading.InNamespace(reg.localNamespace, t.p)
              || LocalReading.Declares(reg.ontology, t.p, "AnnotationProperty")
              || (&& LocalReading.IsChecked(reg.ontology, reg.localNamespace, t.p)
                  && LocalReading.IsUsedAsDeclared(reg.ontology, reg.schema + d.fixture, t))
    {
      Local.TripleSilent(reg.ontology, reg.schema + d.fixture, reg.localNamespace, d.id, t);
      LocalReading.ConformsByTriples(reg.ontology, reg.schema + d.fixture, reg.localNamespace, d.id, t);
    }
  }
}
