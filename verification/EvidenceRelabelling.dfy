/** The evidence of a report says nothing about blank node labels or iteration orders. */
module EvidenceRelabelling {
  import opened Rdf
  import opened Ordering
  import opened ResultPath
  import opened PathTree
  import opened PathAnswers
  import opened ShapeRequirements
  import opened ResultRecord
  import opened ResultEvidence
  import opened Relabelling
  import opened PathRelabelling

  // ----- items by term, under other labels

  ghost function RenamedItems<D>(r: Labels, items: map<Term, D>): (renamed: map<Term, D>)
    requires OneToOne(r)
    ensures renamed.Keys == RenamedTerms(r, items.Keys)
    ensures forall t | t in items :: Renamed(r, t) in renamed && renamed[Renamed(r, t)] == items[t]
  {
    RenamedApart(r);
    map t | t in items :: Renamed(r, t) := items[t]
  }

  lemma HoldersRenamed<D>(r: Labels, items: map<Term, D>, d: D)
    requires OneToOne(r)
    ensures |Holders(RenamedItems(r, items), d)| == |Holders(items, d)|
  {
    assert Holders(RenamedItems(r, items), d) == RenamedTerms(r, Holders(items, d));
    RenamedSize(r, Holders(items, d));
  }

  lemma ItemsComeFrom<D>(r: Labels, terms: set<Term>, items': map<Term, D>) returns (items: map<Term, D>)
    requires OneToOne(r) && items'.Keys == RenamedTerms(r, terms)
    ensures items.Keys == terms && RenamedItems(r, items) == items'
  {
    items := map t | t in terms :: items'[Renamed(r, t)];
    assert forall x | x in items' :: x in RenamedTerms(r, terms);
  }

  lemma ListsRenamed<D(!new)>(r: Labels, items: map<Term, D>, list: seq<D>)
    requires OneToOne(r)
    ensures Lists(RenamedItems(r, items), list) <==> Lists(items, list)
  {
    forall d
      ensures |Holders(RenamedItems(r, items), d)| == |Holders(items, d)|
    {
      HoldersRenamed(r, items, d);
    }
  }

  /** The items of a term are those of the renamed term. */
  ghost predicate SameItems<D(!new)>(r: Labels, terms: set<Term>, item: (Term, D) -> bool, item': (Term, D) -> bool) {
    forall t, d | t in terms :: item(t, d) <==> item'(Renamed(r, t), d)
  }

  lemma ListedRenamed<D(!new)>(r: Labels, terms: set<Term>, item: (Term, D) -> bool, item': (Term, D) -> bool,
        list: seq<D>)
    requires OneToOne(r) && SameItems(r, terms, item, item')
    ensures Listed(terms, item, list) <==> Listed(RenamedTerms(r, terms), item', list)
  {
    if Listed(terms, item, list) {
      var items: map<Term, D> :| ItemsFor(items, terms, item) && Lists(items, list);
      ListsRenamed(r, items, list);
      assert ItemsFor(RenamedItems(r, items), RenamedTerms(r, terms), item');
    }
    if Listed(RenamedTerms(r, terms), item', list) {
      var items': map<Term, D> :| ItemsFor(items', RenamedTerms(r, terms), item') && Lists(items', list);
      var items := ItemsComeFrom(r, terms, items');
      ListsRenamed(r, items, list);
      assert ItemsFor(items, terms, item);
    }
  }

  // ----- records

  lemma FocusTypesRenamed(r: Labels, report: Graph, data: Graph, n: Term)
    requires OneToOne(r)
    ensures FocusTypes(RenamedGraph(r, report), RenamedGraph(r, data), Renamed(r, n)) == FocusTypes(report, data, n)
  {
    RenamedObjects(r, report, n, SH_FOCUS_NODE);
    forall focus | focus in Objects(report, n, SH_FOCUS_NODE)
      ensures Objects(RenamedGraph(r, data), Renamed(r, focus), RDF_TYPE)
        == RenamedTerms(r, Objects(data, focus, RDF_TYPE))
    {
      RenamedObjects(r, data, focus, RDF_TYPE);
    }
    assert forall t :: IriOrKind(Renamed(r, t)) == IriOrKind(t);
  }

  lemma ResultIdsRenamed(r: Labels, report: Graph, shapes: Graph, n: Term)
    requires OneToOne(r)
    ensures ResultIds(RenamedGraph(r, report), RenamedGraph(r, shapes), Renamed(r, n)) == ResultIds(report, shapes, n)
  {
    RenamedObjects(r, report, n, SH_SOURCE_SHAPE);
    forall shape | shape in Objects(report, n, SH_SOURCE_SHAPE)
      ensures InheritedIds(RenamedGraph(r, shapes), Renamed(r, shape)) == InheritedIds(shapes, shape)
    {
      InheritedIdsRenamed(r, shapes, shape);
    }
  }

  lemma PathsRenamed(r: Labels, report: Graph, shapes: Graph, terms: set<Term>)
    requires OneToOne(r)
    ensures SameItems(r, terms, IsPathOf([report, shapes]),
      IsPathOf([RenamedGraph(r, report), RenamedGraph(r, shapes)]))
  {
    assert RenamedGraphs(r, [report, shapes]) == [RenamedGraph(r, report), RenamedGraph(r, shapes)];
    assert RenamedTerms(r, {}) == {};
    forall t, d: Descriptor | t in terms
      ensures IsPathOf([report, shapes])(t, d)
         <==> IsPathOf([RenamedGraph(r, report), RenamedGraph(r, shapes)])(Renamed(r, t), d)
    {
      DescribesRenamed(r, [report, shapes], t, {}, d);
    }
  }

  lemma SortedListRenamed<D(!new)>(r: Labels, report: Graph, n: Term, p: Term, key: D -> string,
        item: (Term, D) -> bool, item': (Term, D) -> bool, list: seq<D>)
    requires OneToOne(r) && !p.BNode? && SameItems(r, Objects(report, n, p), item, item')
    ensures SortedList(key, Objects(report, n, p), item, list)
       <==> SortedList(key, Objects(RenamedGraph(r, report), Renamed(r, n), p), item', list)
  {
    RenamedObjects(r, report, n, p);
    ListedRenamed(r, Objects(report, n, p), item, item', list);
  }

  lemma LabelFreeItems<D(!new)>(r: Labels, terms: set<Term>, f: Term -> D)
    requires forall t :: f(Renamed(r, t)) == f(t)
    ensures SameItems(r, terms, IsOf(f), IsOf(f))
  {
  }

  /** A result has the same canonical records under any labels. */
  lemma RecordRenamed(r: Labels, report: Graph, shapes: Graph, data: Graph, json: Json, n: Term, record: Record)
    requires OneToOne(r)
    ensures IsRecord(report, shapes, data, json, n, record)
       <==> IsRecord(RenamedGraph(r, report), RenamedGraph(r, shapes), RenamedGraph(r, data), json, Renamed(r, n),
         record)
  {
    FocusTypesRenamed(r, report, data, n);
    ResultIdsRenamed(r, report, shapes, n);
    PathsRenamed(r, report, shapes, Objects(report, n, SH_RESULT_PATH));
    SortedListRenamed(r, report, n, SH_RESULT_PATH, json.path, IsPathOf([report, shapes]),
      IsPathOf([RenamedGraph(r, report), RenamedGraph(r, shapes)]), record.paths);
    LabelFreeItems(r, Objects(report, n, SH_RESULT_SEVERITY), IriOrKind);
    LabelFreeItems(r, Objects(report, n, SH_SOURCE_CONSTRAINT_COMPONENT), IriOrKind);
    LabelFreeItems(r, Objects(report, n, SH_VALUE), DescribeValue);
    SortedListRenamed(r, report, n, SH_RESULT_SEVERITY, k => k, IsOf(IriOrKind), IsOf(IriOrKind), record.severities);
    SortedListRenamed(r, report, n, SH_SOURCE_CONSTRAINT_COMPONENT, k => k, IsOf(IriOrKind), IsOf(IriOrKind),
      record.components);
    SortedListRenamed(r, report, n, SH_VALUE, json.value, IsOf(DescribeValue), IsOf(DescribeValue), record.values);
  }

  // ----- evidence

  lemma ResultsRenamed(r: Labels, report: Graph)
    requires OneToOne(r)
    ensures Results(RenamedGraph(r, report)) == RenamedTerms(r, Results(report))
  {
    forall t | t in report && t.p == SH_RESULT
      ensures Renamed(r, t.o) in Results(RenamedGraph(r, report))
    {
      assert RenamedTriple(r, t) in RenamedGraph(r, report);
    }
  }

  lemma MultisetRenamed(r: Labels, results: set<Term>, has: (Term, string) -> bool, has': (Term, string) -> bool,
        entries: seq<Entry>)
    requires OneToOne(r) && SameItems(r, results, has, has')
    ensures IsMultiset(entries, results, has) <==> IsMultiset(entries, RenamedTerms(r, results), has')
  {
    forall s
      ensures |Having(RenamedTerms(r, results), has', s)| == |Having(results, has, s)|
    {
      assert Having(RenamedTerms(r, results), has', s) == RenamedTerms(r, Having(results, has, s));
      RenamedSize(r, Having(results, has, s));
    }
  }

  lemma SignaturesRenamed(r: Labels, digest: Record -> string, records: map<Term, Record>)
    requires OneToOne(r)
    ensures SameItems(r, records.Keys, BySignature(Signatures(digest, records)),
      BySignature(Signatures(digest, RenamedItems(r, records))))
  {
  }

  lemma CountsRenamed(r: Labels, report: Graph, shapes: Graph, digests: Digests, records: map<Term, Record>,
        evidence: Evidence)
    requires OneToOne(r) && records.Keys == Results(report)
    ensures CountsRecords(report, shapes, digests, records, evidence)
       <==> CountsRecords(RenamedGraph(r, report), RenamedGraph(r, shapes), digests, RenamedItems(r, records), evidence)
  {
    var results := Results(report);
    var report', shapes' := RenamedGraph(r, report), RenamedGraph(r, shapes);
    ResultsRenamed(r, report);
    RenamedSize(r, results);
    forall n, s: string | n in results
      ensures ById(report, shapes)(n, s) <==> ById(report', shapes')(Renamed(r, n), s)
    {
      ResultIdsRenamed(r, report, shapes, n);
    }
    MultisetRenamed(r, results, ById(report, shapes), ById(report', shapes'), evidence.requirementIdMultiset);
    var signed := BySignature(Signatures(digests.record, records));
    var signed' := BySignature(Signatures(digests.record, RenamedItems(r, records)));
    SignaturesRenamed(r, digests.record, records);
    MultisetRenamed(r, results, signed, signed', evidence.resultMultiset);
  }

  lemma RecordsRenamed(r: Labels, report: Graph, shapes: Graph, data: Graph, json: Json, records: map<Term, Record>)
    requires OneToOne(r)
    ensures AreRecords(report, shapes, data, json, records)
       <==> AreRecords(RenamedGraph(r, report), RenamedGraph(r, shapes), RenamedGraph(r, data), json,
         RenamedItems(r, records))
  {
    forall n | n in records
      ensures IsRecord(report, shapes, data, json, n, records[n])
         <==> IsRecord(RenamedGraph(r, report), RenamedGraph(r, shapes), RenamedGraph(r, data), json, Renamed(r, n),
           records[n])
    {
      RecordRenamed(r, report, shapes, data, json, n, records[n]);
    }
    forall x | x in RenamedItems(r, records)
      ensures exists n :: n in records && x == Renamed(r, n)
    {
      assert x in RenamedTerms(r, records.Keys);
    }
  }

  /** Under other labels in report, shapes and data the same evidence is possible. */
  lemma EvidenceRenamed(r: Labels, report: Graph, shapes: Graph, data: Graph, digests: Digests, evidence: Evidence)
    requires OneToOne(r)
    ensures IsEvidence(report, shapes, data, digests, evidence)
       <==> IsEvidence(RenamedGraph(r, report), RenamedGraph(r, shapes), RenamedGraph(r, data), digests, evidence)
  {
    var report', shapes', data' := RenamedGraph(r, report), RenamedGraph(r, shapes), RenamedGraph(r, data);
    ResultsRenamed(r, report);
    if IsEvidence(report, shapes, data, digests, evidence) {
      var records: map<Term, Record> :|
        records.Keys == Results(report) && AreRecords(report, shapes, data, digests.json, records)
        && CountsRecords(report, shapes, digests, records, evidence);
      RecordsRenamed(r, report, shapes, data, digests.json, records);
      CountsRenamed(r, report, shapes, digests, records, evidence);
    }
    if IsEvidence(report', shapes', data', digests, evidence) {
      var records': map<Term, Record> :|
        records'.Keys == Results(report') && AreRecords(report', shapes', data', digests.json, records')
        && CountsRecords(report', shapes', digests, records', evidence);
      var records := ItemsComeFrom(r, Results(report), records');
      RecordsRenamed(r, report, shapes, data, digests.json, records);
      CountsRenamed(r, report, shapes, digests, records, evidence);
    }
  }

  /** Wherever the decoder has a choice in a result path, the operands agree. */
  ghost predicate PathsUnambiguous(report: Graph, shapes: Graph) {
    forall n, t | n in Results(report) && t in Objects(report, n, SH_RESULT_PATH) ::
      Unambiguous([report, shapes], t, {})
  }

  /** Every result path in the report encodes a path tree. */
  ghost predicate PathsEncodeTrees(report: Graph, shapes: Graph) {
    forall n, t | n in Results(report) && t in Objects(report, n, SH_RESULT_PATH) ::
      exists tree :: Encodes([report, shapes], t, tree)
  }

  /** Well-formed paths are among them. */
  lemma EncodedPathsAreUnambiguous(report: Graph, shapes: Graph)
    requires PathsEncodeTrees(report, shapes)
    ensures PathsUnambiguous(report, shapes)
  {
    forall n, t | n in Results(report) && t in Objects(report, n, SH_RESULT_PATH)
      ensures Unambiguous([report, shapes], t, {})
    {
      var tree :| Encodes([report, shapes], t, tree);
      EncodedIsUnambiguous([report, shapes], t, tree);
    }
  }

  lemma EncodedIsUnambiguous(gs: seq<Graph>, t: Term, tree: Path)
    requires Encodes(gs, t, tree)
    ensures Unambiguous(gs, t, {})
  {
    forall d | Describes(gs, t, {}, d)
      ensures d == Describe(tree)
    {
      PathRoundTrip(gs, t, tree, d);
    }
    OneAnswerExactly(gs, t, {});
  }

  lemma UnambiguousPathsAreDetermined(report: Graph, shapes: Graph, n: Term)
    requires PathsUnambiguous(report, shapes) && n in Results(report)
    ensures PathsDetermined(report, shapes, n)
  {
    forall t | t in Objects(report, n, SH_RESULT_PATH)
      ensures AnswersAgree([report, shapes], t, {})
    {
      OneAnswerExactly([report, shapes], t, {});
    }
  }

  lemma EvidenceIsDetermined(report: Graph, shapes: Graph, data: Graph, digests: Digests, a: Evidence, b: Evidence)
    requires Faithful(digests.json) && forall n | n in Results(report) :: PathsDetermined(report, shapes, n)
    requires IsEvidence(report, shapes, data, digests, a) && IsEvidence(report, shapes, data, digests, b)
    ensures a == b
  {
    var records: map<Term, Record> :|
      records.Keys == Results(report) && AreRecords(report, shapes, data, digests.json, records)
      && CountsRecords(report, shapes, digests, records, a);
    var records': map<Term, Record> :|
      records'.Keys == Results(report) && AreRecords(report, shapes, data, digests.json, records')
      && CountsRecords(report, shapes, digests, records', b);
    RecordsDetermined(report, shapes, data, digests.json, records, records');
    CountsDetermined(report, shapes, digests, records, a, b);
  }

  lemma RecordsDetermined(report: Graph, shapes: Graph, data: Graph, json: Json,
        a: map<Term, Record>, b: map<Term, Record>)
    requires Faithful(json) && a.Keys == b.Keys && forall n | n in a :: PathsDetermined(report, shapes, n)
    requires AreRecords(report, shapes, data, json, a) && AreRecords(report, shapes, data, json, b)
    ensures a == b
  {
    forall n | n in a
      ensures n in b && a[n] == b[n]
    {
      assert n in b.Keys;
      RecordIsCanonical(report, shapes, data, json, n, a[n], b[n]);
    }
  }

  lemma CountsDetermined(report: Graph, shapes: Graph, digests: Digests, records: map<Term, Record>, a: Evidence,
        b: Evidence)
    requires CountsRecords(report, shapes, digests, records, a) && CountsRecords(report, shapes, digests, records, b)
    ensures a == b
  {
    SameCounts(a.resultMultiset, b.resultMultiset, Results(report), BySignature(Signatures(digests.record, records)));
    SameCounts(a.requirementIdMultiset, b.requirementIdMultiset, Results(report), ById(report, shapes));
  }

  lemma SameCounts(a: seq<Entry>, b: seq<Entry>, results: set<Term>, has: (Term, string) -> bool)
    requires IsMultiset(a, results, has) && IsMultiset(b, results, has)
    ensures a == b
  {
    MultisetIsCanonical(a, results, has, b, results, has);
  }

  /** The evidence is a function of what the report says: whenever its paths are unambiguous,
      two runs give the same evidence, in any iteration order and even if all blank nodes of
      report, shapes and data were labelled anew in between. */
  lemma EvidenceIsLabelFree(r: Labels, report: Graph, shapes: Graph, data: Graph, digests: Digests, a: Evidence,
        b: Evidence)
    requires OneToOne(r) && Faithful(digests.json) && PathsUnambiguous(report, shapes)
    requires IsEvidence(report, shapes, data, digests, a)
    requires IsEvidence(RenamedGraph(r, report), RenamedGraph(r, shapes), RenamedGraph(r, data), digests, b)
    ensures a == b
  {
    EvidenceRenamed(r, report, shapes, data, digests, b);
    forall n | n in Results(report)
      ensures PathsDetermined(report, shapes, n)
    {
      UnambiguousPathsAreDetermined(report, shapes, n);
    }
    EvidenceIsDetermined(report, shapes, data, digests, a, b);
  }
}
