/** `run_gate` and the verdict of `main`: all checks together. */
module Gate {
  import opened Wrappers
  import opened Rdf
  import opened Enumeration
  import opened Ordering
  import opened RdfList
  import opened Findings
  import Schema = SchemaConsistency
  import Local = LocalProperties
  import Closure = ClosureConsistency

  /** A registered dataset. The closure of schema and fixture, and the error messages of
      its computation, come from the OWL-RL library. */
  datatype Dataset = Dataset(id: string, fixture: Graph, closure: Graph, ruleErrors: seq<string>)

  datatype Registry = Registry(ontology: Graph, schema: Graph, localNamespace: string, config: Schema.Config,
    datasets: seq<Dataset>)

  datatype DatasetReport = DatasetReport(id: string, findings: seq<Finding>, passed: bool)

  datatype Report = Report(schemaFindings: seq<Finding>, datasets: seq<DatasetReport>, findings: seq<Finding>,
    gatePassed: bool)

  function RuleErrors(d: Dataset): set<Finding> {
    set m | m in d.ruleErrors :: OwlRlRuleError(d.id, m)
  }

  ghost function LocalItems(reg: Registry, d: Dataset): set<Finding> {
    Collect(d.fixture, t => Local.TripleItem(reg.ontology, reg.schema + d.fixture, reg.localNamespace, d.id, t))
  }

  /** The findings reported on one dataset. */
  ghost predicate IsDatasetFinding(reg: Registry, d: Dataset, f: Finding) {
    || f in LocalItems(reg, d)
    || f in RuleErrors(d)
    || Closure.IsClosureFinding(d.closure, d.fixture, Schema.Deprecated(reg.ontology), d.id,
      reg.config.failOnDeprecatedFixtureUse, f)
  }

  ghost predicate IsRegistryFinding(reg: Registry, f: Finding) {
    Schema.IsSchemaFinding(reg.ontology, reg.schema, reg.localNamespace, reg.config, f)
  }

  ghost predicate DatasetConsistent(reg: Registry, d: Dataset) {
    && Local.FixtureConforms(reg.ontology, reg.schema + d.fixture, d.fixture, reg.localNamespace)
    && d.ruleErrors == []
    && Closure.ClosureConsistent(d.closure, d.fixture, Schema.Deprecated(reg.ontology),
      reg.config.failOnDeprecatedFixtureUse)
  }

  lemma DatasetVerdict(reg: Registry, d: Dataset)
    ensures (forall f :: !IsDatasetFinding(reg, d, f)) <==> DatasetConsistent(reg, d)
  {
    Local.LocalVerdict(reg.ontology, reg.schema + d.fixture, d.fixture, reg.localNamespace, d.id);
    var deprecated, failOnUse := Schema.Deprecated(reg.ontology), reg.config.failOnDeprecatedFixtureUse;
    Closure.ClosureVerdict(d.closure, d.fixture, deprecated, d.id, failOnUse);
    if forall f :: !IsDatasetFinding(reg, d, f) {
      assert LocalItems(reg, d) == {} by {
        if f :| f in LocalItems(reg, d) { assert IsDatasetFinding(reg, d, f); }
      }
      assert d.ruleErrors == [] by {
        if d.ruleErrors != [] { assert IsDatasetFinding(reg, d, OwlRlRuleError(d.id, d.ruleErrors[0])); }
      }
      forall f
        ensures !Closure.IsClosureFinding(d.closure, d.fixture, deprecated, d.id, failOnUse, f)
      {
        assert !IsDatasetFinding(reg, d, f);
      }
    }
  }

  method DatasetFindings(reg: Registry, d: Dataset, key: Finding -> string) returns (r: Result<seq<Finding>, ListError>)
    requires Injective(key)
    ensures r.Ok? <==> Closure.ClosureListsDecode(d.closure)
    ensures r.Ok? ==> SortedByKey(key, r.value)
    ensures r.Ok? ==> forall f :: f in r.value <==> IsDatasetFinding(reg, d, f)
  {
    var explicit := reg.schema + d.fixture;
    var local := Local.LocalPropertyFindings(reg.ontology, explicit, d.fixture, reg.localNamespace, d.id);
    var errors := Enumerate(RuleErrors(d));
    var closure := Closure.ClosureFindings(d.closure, d.fixture, Schema.Deprecated(reg.ontology), d.id,
      reg.config.failOnDeprecatedFixtureUse);
    if closure.Err? {
      return closure;
    }
    var all := local + errors + closure.value;
    var findings := DeduplicateAndSort(key, all);
    UniqueSortedCharacterised(key, all);
    forall f
      ensures f in findings <==> IsDatasetFinding(reg, d, f)
    {
      assert f in findings <==> f in Elements(findings);
      assert f in all <==> f in Elements(all);
      assert f in local <==> f in Elements(local);
      assert f in errors <==> f in Elements(errors);
    }
    return Ok(findings);
  }

  ghost predicate ReportsDataset(reg: Registry, d: Dataset, report: DatasetReport, key: Finding -> string) {
    && report.id == d.id
    && SortedByKey(key, report.findings)
    && (forall f :: f in report.findings <==> IsDatasetFinding(reg, d, f))
    && (report.passed <==> report.findings == [])
  }

  ghost predicate InSomeDataset(reg: Registry, n: nat, f: Finding)
    requires n <= |reg.datasets|
  {
    exists i :: 0 <= i < n && IsDatasetFinding(reg, reg.datasets[i], f)
  }

  /** What the dataset loop keeps after `n` datasets. */
  ghost predicate DatasetsDone(reg: Registry, key: Finding -> string, n: nat, reports: seq<DatasetReport>,
        all: seq<Finding>)
    requires n <= |reg.datasets|
  {
    && |reports| == n
    && (forall j | 0 <= j < n :: Closure.ClosureListsDecode(reg.datasets[j].closure))
    && (forall j | 0 <= j < n :: ReportsDataset(reg, reg.datasets[j], reports[j], key))
    && (forall f :: f in all <==> InSomeDataset(reg, n, f))
  }

  lemma DatasetStep(reg: Registry, key: Finding -> string, n: nat, reports: seq<DatasetReport>, all: seq<Finding>,
        report: DatasetReport)
    requires n < |reg.datasets| && DatasetsDone(reg, key, n, reports, all)
    requires Closure.ClosureListsDecode(reg.datasets[n].closure)
    requires ReportsDataset(reg, reg.datasets[n], report, key)
    ensures DatasetsDone(reg, key, n + 1, reports + [report], all + report.findings)
  {
  }

  method DatasetReports(reg: Registry, key: Finding -> string)
    returns (r: Result<(seq<DatasetReport>, seq<Finding>), ListError>)
    requires Injective(key)
    ensures r.Ok? <==> forall i | 0 <= i < |reg.datasets| :: Closure.ClosureListsDecode(reg.datasets[i].closure)
    ensures r.Ok? ==> DatasetsDone(reg, key, |reg.datasets|, r.value.0, r.value.1)
  {
    var all: seq<Finding> := [];
    var reports: seq<DatasetReport> := [];
    for i := 0 to |reg.datasets|
      invariant DatasetsDone(reg, key, i, reports, all)
    {
      var found := DatasetFindings(reg, reg.datasets[i], key);
      if found.Err? {
        return Err(found.error);
      }
      var report := DatasetReport(reg.datasets[i].id, found.value, found.value == []);
      DatasetStep(reg, key, i, reports, all, report);
      all := all + found.value;
      reports := reports + [report];
    }
    return Ok((reports, all));
  }

  /** The report holds every finding once, in key order, on the whole and by part. */
  ghost predicate IsReport(reg: Registry, key: Finding -> string, report: Report) {
    && |report.datasets| == |reg.datasets|
    && (forall i | 0 <= i < |reg.datasets| :: ReportsDataset(reg, reg.datasets[i], report.datasets[i], key))
    && SortedByKey(key, report.schemaFindings) && SortedByKey(key, report.findings)
    && (forall f :: f in report.schemaFindings <==> IsRegistryFinding(reg, f))
    && (forall f :: f in report.findings <==> IsRegistryFinding(reg, f) || InSomeDataset(reg, |reg.datasets|, f))
    && (report.gatePassed <==> report.findings == [])
  }

  method RunGate(reg: Registry, key: Finding -> string) returns (r: Result<Report, ListError>)
    requires Injective(key)
    ensures r.Ok? <==> AllListsDecode(reg)
    ensures r.Ok? ==> IsReport(reg, key, r.value)
  {
    var schema := Schema.SchemaFindings(reg.ontology, reg.schema, reg.localNamespace, reg.config);
    if schema.Err? {
      return Err(schema.error);
    }
    var datasets := DatasetReports(reg, key);
    if datasets.Err? {
      return Err(datasets.error);
    }
    var all := schema.value + datasets.value.1;
    var schemaFindings := DeduplicateAndSort(key, schema.value);
    var findings := DeduplicateAndSort(key, all);
    UniqueSortedCharacterised(key, schema.value);
    UniqueSortedCharacterised(key, all);
    SameMembers(schemaFindings, schema.value);
    SameMembers(findings, all);
    return Ok(Report(schemaFindings, datasets.value.0, findings, findings == []));
  }

  lemma SameMembers<T>(a: seq<T>, b: seq<T>)
    requires Elements(a) == Elements(b)
    ensures forall x | x in a :: x in b
    ensures forall x | x in b :: x in a
  {
    assert forall x | x in a :: x in Elements(a);
    assert forall x | x in b :: x in Elements(b);
  }

  ghost predicate AllListsDecode(reg: Registry) {
    && Schema.SchemaListsDecode(reg.schema)
    && forall i | 0 <= i < |reg.datasets| :: Closure.ClosureListsDecode(reg.datasets[i].closure)
  }

  // ----- the verdict

  ghost predicate RegistryConsistent(reg: Registry) {
    && Schema.SchemaConsistent(reg.ontology, reg.schema, reg.localNamespace, reg.config)
    && forall i | 0 <= i < |reg.datasets| :: DatasetConsistent(reg, reg.datasets[i])
  }

  lemma NoFindingIsConsistent(reg: Registry)
    ensures (forall f :: !IsRegistryFinding(reg, f) && !InSomeDataset(reg, |reg.datasets|, f))
       <==> RegistryConsistent(reg)
  {
    Schema.SchemaVerdict(reg.ontology, reg.schema, reg.localNamespace, reg.config);
    forall i | 0 <= i < |reg.datasets|
      ensures (forall f :: !IsDatasetFinding(reg, reg.datasets[i], f)) <==> DatasetConsistent(reg, reg.datasets[i])
    {
      DatasetVerdict(reg, reg.datasets[i]);
    }
    if forall f :: !IsRegistryFinding(reg, f) && !InSomeDataset(reg, |reg.datasets|, f) {
      forall i, f | 0 <= i < |reg.datasets|
        ensures !IsDatasetFinding(reg, reg.datasets[i], f)
      {
        assert !InSomeDataset(reg, |reg.datasets|, f);
      }
      forall f
        ensures !Schema.IsSchemaFinding(reg.ontology, reg.schema, reg.localNamespace, reg.config, f)
      {
        assert !IsRegistryFinding(reg, f);
      }
    }
  }

  /** The exit verdict of the tool: it passes exactly when every RDF list it must read is
      well formed and schema and datasets are consistent; a list error fails closed. */
  method GateVerdict(reg: Registry, key: Finding -> string) returns (passed: bool)
    requires Injective(key)
    ensures passed <==> AllListsDecode(reg) && RegistryConsistent(reg)
  {
    var report := RunGate(reg, key);
    if report.Err? {
      return false;
    }
    NoFindingIsConsistent(reg);
    assert report.value.findings != [] ==> report.value.findings[0] in report.value.findings;
    return report.value.gatePassed;
  }

  /** A report passes exactly when the schema findings are empty and every dataset passed. */
  lemma PassedByParts(reg: Registry, key: Finding -> string, report: Report)
    requires IsReport(reg, key, report)
    ensures report.gatePassed
       <==> report.schemaFindings == [] && forall i | 0 <= i < |report.datasets| :: report.datasets[i].passed
  {
    assert forall f | f in report.schemaFindings :: f in report.findings;
    forall i, f | 0 <= i < |report.datasets| && f in report.datasets[i].findings
      ensures f in report.findings
    {
      assert ReportsDataset(reg, reg.datasets[i], report.datasets[i], key);
      assert InSomeDataset(reg, |reg.datasets|, f);
    }
    if !report.gatePassed {
      assert report.findings[0] in report.findings;
    } else {
      ContainedInEmpty(report.schemaFindings, report.findings);
      forall i | 0 <= i < |report.datasets|
        ensures report.datasets[i].passed
      {
        assert ReportsDataset(reg, reg.datasets[i], report.datasets[i], key);
        ContainedInEmpty(report.datasets[i].findings, report.findings);
      }
    }
  }

  lemma ContainedInEmpty<T>(a: seq<T>, b: seq<T>)
    requires forall x | x in a :: x in b
    ensures b == [] ==> a == []
  {
    if a != [] {
      assert a[0] in b;
    }
  }
}
