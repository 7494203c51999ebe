/** The evidence drawn from a validation report: the counters of `result_evidence`, why the
    sorted multiset is a canonical form. */
module ResultEvidence {
  import opened Rdf
  import opened Enumeration
  import opened Ordering
  import opened ShapeRequirements
  import opened ResultRecord
  import Walks

  const SH_RESULT := IRI(SH_NS + "result")

  type Counter = map<string, nat>

  function Count(counts: Counter, s: string): nat {
    if s in counts then counts[s] else 0
  }

  /** `counts` counts, for every string, the members of `done` that have it. */
  ghost predicate IsTally(counts: Counter, done: set<Term>, has: (Term, string) -> bool) {
    forall s :: Count(counts, s) == |Having(done, has, s)| && (s in counts ==> counts[s] > 0)
  }

  ghost function Having(done: set<Term>, has: (Term, string) -> bool, s: string): set<Term> {
    set n | n in done && has(n, s)
  }

  /** `updated` is the counter after adding each of the strings once. */
  ghost predicate Updated(counts: Counter, updated: Counter, items: set<string>) {
    && (forall s :: Count(updated, s) == Count(counts, s) + if s in items then 1 else 0)
    && (forall s :: s in updated <==> s in counts || s in items)
  }

  /** `Counter.update` with a set of strings. */
  method Update(counts: Counter, items: set<string>) returns (updated: Counter)
    ensures Updated(counts, updated, items)
  {
    updated := counts;
    var order := Enumerate(items);
    for i := 0 to |order|
      invariant forall s :: Count(updated, s) == Count(counts, s) + if s in order[..i] then 1 else 0
      invariant forall s :: s in updated <==> s in counts || s in order[..i]
    {
      assert order[..i + 1] == order[..i] + [order[i]];
      assert order[i] !in order[..i];
      updated := updated[order[i] := Count(updated, order[i]) + 1];
    }
    assert order[..|order|] == order;
    assert forall s :: s in items <==> s in order by {
      assert forall s :: s in order <==> s in Elements(order);
    }
  }

  lemma TallyStep(counts: Counter, updated: Counter, items: set<string>, done: set<Term>, n: Term, has: (Term,
        string) -> bool)
    requires IsTally(counts, done, has) && n !in done
    requires forall s :: has(n, s) <==> s in items
    requires Updated(counts, updated, items)
    ensures IsTally(updated, done + {n}, has)
  {
    forall s
      ensures Count(updated, s) == |Having(done + {n}, has, s)| && (s in updated ==> updated[s] > 0)
    {
      HavingStep(done, n, has, s);
      assert Count(counts, s) == |Having(done, has, s)|;
    }
  }

  lemma HavingStep(done: set<Term>, n: Term, has: (Term, string) -> bool, s: string)
    requires n !in done
    ensures |Having(done + {n}, has, s)| == |Having(done, has, s)| + if has(n, s) then 1 else 0
  {
    if has(n, s) {
      assert Having(done + {n}, has, s) == Having(done, has, s) + {n};
    } else {
      assert Having(done + {n}, has, s) == Having(done, has, s);
    }
  }

  // ----- sorted lists of counts

  datatype Entry = Entry(text: string, count: nat)

  const TEXT := (e: Entry) => e.text

  ghost predicate IsEntries(counts: Counter, entries: seq<Entry>) {
    && SortedByKey(TEXT, entries)
    && forall e: Entry :: e in entries <==> e.text in counts && counts[e.text] == e.count
  }

  /** `sorted(counter.items())`. */
  method SortedEntries(counts: Counter) returns (entries: seq<Entry>)
    ensures IsEntries(counts, entries)
  {
    var keys := SortStrings(counts.Keys);
    assert forall i | 0 <= i < |keys| :: keys[i] in Elements(keys);
    entries := seq(|keys|, i requires 0 <= i < |keys| && keys[i] in counts => Entry(keys[i], counts[keys[i]]));
    forall e: Entry | e.text in counts && counts[e.text] == e.count
      ensures e in entries
    {
      assert e.text in Elements(keys);
      var i :| 0 <= i < |keys| && keys[i] == e.text;
      assert entries[i] == e;
    }
  }

  function Sum(entries: seq<Entry>): nat {
    if entries == [] then 0 else entries[0].count + Sum(entries[1..])
  }

  // ----- the evidence of a report

  datatype Evidence = Evidence(
    requirementIdMultiset: seq<Entry>, resultCount: nat, resultDigest: string, resultMultiset: seq<Entry>)

  /** The JSON texts and SHA-256 digests that the evidence is made with. */
  datatype Digests = Digests(json: Json, record: Record -> string, resultMultiset: seq<Entry> -> string)

  function Results(report: Graph): set<Term> {
    set t | t in report && t.p == SH_RESULT :: t.o
  }

  method IdsOfResult(report: Graph, shapes: Graph, n: Term) returns (ids: set<string>)
    ensures ids == ResultIds(report, shapes, n)
  {
    ids := {};
    var order := Enumerate(Objects(report, n, SH_SOURCE_SHAPE));
    for i := 0 to |order|
      invariant ids == set shape, id | shape in order[..i] && id in InheritedIds(shapes, shape) :: id
    {
      assert order[..i + 1] == order[..i] + [order[i]];
      var found := RequirementIds(shapes, order[i]);
      ids := ids + found;
    }
    assert order[..|order|] == order;
    assert forall shape :: shape in order <==> shape in Elements(order);
  }

  ghost function ById(report: Graph, shapes: Graph): (Term, string) -> bool {
    (n, id) => id in ResultIds(report, shapes, n)
  }

  ghost function BySignature(signatures: map<Term, string>): (Term, string) -> bool {
    (n, s) => n in signatures && signatures[n] == s
  }

  /** The list counts, in key order, the results that have each string. */
  ghost predicate IsMultiset(entries: seq<Entry>, results: set<Term>, has: (Term, string) -> bool) {
    && SortedByKey(TEXT, entries)
    && forall e: Entry :: e in entries <==> e.count == |Having(results, has, e.text)| && e.count > 0
  }

  ghost predicate AreRecords(report: Graph, shapes: Graph, data: Graph, json: Json, records: map<Term, Record>) {
    forall n | n in records :: IsRecord(report, shapes, data, json, n, records[n])
  }

  function Signatures(digest: Record -> string, records: map<Term, Record>): map<Term, string> {
    map n | n in records :: digest(records[n])
  }

  /** The evidence counts the requirement identifiers and the digests of the results' canonical
      records. */
  ghost predicate CountsRecords(report: Graph, shapes: Graph, digests: Digests, records: map<Term, Record>,
        evidence: Evidence)
  {
    && IsMultiset(evidence.requirementIdMultiset, Results(report), ById(report, shapes))
    && IsMultiset(evidence.resultMultiset, Results(report), BySignature(Signatures(digests.record, records)))
    && evidence.resultCount == |Results(report)|
    && evidence.resultDigest == digests.resultMultiset(evidence.resultMultiset)
  }

  ghost predicate IsEvidence(report: Graph, shapes: Graph, data: Graph, digests: Digests, evidence: Evidence) {
    exists records: map<Term, Record> ::
      && records.Keys == Results(report) && AreRecords(report, shapes, data, digests.json, records)
      && CountsRecords(report, shapes, digests, records, evidence)
  }

  lemma SignatureStep(counts: Counter, updated: Counter, signatures: map<Term, string>, n: Term, s: string)
    requires IsTally(counts, signatures.Keys, BySignature(signatures)) && n !in signatures
    requires Updated(counts, updated, {s})
    ensures IsTally(updated, signatures.Keys + {n}, BySignature(signatures[n := s]))
  {
    var has, has' := BySignature(signatures), BySignature(signatures[n := s]);
    forall x
      ensures Having(signatures.Keys, has, x) == Having(signatures.Keys, has', x)
    {
    }
    TallyStep(counts, updated, {s}, signatures.Keys, n, has');
  }

  /** The counters after the results in `records`. */
  ghost predicate CountedSoFar(report: Graph, shapes: Graph, data: Graph, digests: Digests, records: map<Term, Record>,
        requirementCounts: Counter, signatureCounts: Counter)
  {
    && AreRecords(report, shapes, data, digests.json, records)
    && IsTally(requirementCounts, records.Keys, ById(report, shapes))
    && IsTally(signatureCounts, records.Keys, BySignature(Signatures(digests.record, records)))
  }

  lemma SignaturesGrow(digest: Record -> string, records: map<Term, Record>, n: Term, record: Record)
    ensures Signatures(digest, records).Keys == records.Keys
    ensures records[n := record].Keys == records.Keys + {n}
    ensures Signatures(digest, records[n := record]) == Signatures(digest, records)[n := digest(record)]
  {
  }

  lemma ResultCounted(report: Graph, shapes: Graph, data: Graph, digests: Digests, records: map<Term, Record>,
        requirementCounts: Counter, signatureCounts: Counter, n: Term, record: Record,
        requirements: Counter, signatures: Counter)
    requires CountedSoFar(report, shapes, data, digests, records, requirementCounts, signatureCounts)
    requires n !in records && IsRecord(report, shapes, data, digests.json, n, record)
    requires Updated(requirementCounts, requirements, ResultIds(report, shapes, n))
    requires Updated(signatureCounts, signatures, {digests.record(record)})
    ensures CountedSoFar(report, shapes, data, digests, records[n := record], requirements, signatures)
  {
    SignaturesGrow(digests.record, records, n, record);
    TallyStep(requirementCounts, requirements, ResultIds(report, shapes, n), records.Keys, n, ById(report, shapes));
    SignatureStep(signatureCounts, signatures, Signatures(digests.record, records), n, digests.record(record));
  }

  ghost predicate Summarizes(digests: Digests, requirementCounts: Counter, signatureCounts: Counter, evidence: Evidence)
  {
    && IsEntries(requirementCounts, evidence.requirementIdMultiset)
    && IsEntries(signatureCounts, evidence.resultMultiset)
    && evidence.resultCount == Sum(evidence.resultMultiset)
    && evidence.resultDigest == digests.resultMultiset(evidence.resultMultiset)
  }

  /** The evidence written from the final counters. */
  method Summary(digests: Digests, requirementCounts: Counter, signatureCounts: Counter) returns (evidence: Evidence)
    ensures Summarizes(digests, requirementCounts, signatureCounts, evidence)
  {
    var requirements := SortedEntries(requirementCounts);
    var signatures := SortedEntries(signatureCounts);
    return Evidence(requirements, Sum(signatures), digests.resultMultiset(signatures), signatures);
  }

  method CollectEvidence(report: Graph, shapes: Graph, data: Graph, digests: Digests) returns (evidence: Evidence)
    requires Faithful(digests.json)
    ensures IsEvidence(report, shapes, data, digests, evidence)
    ensures evidence.resultCount == Sum(evidence.resultMultiset)
  {
    var signatureCounts: Counter := map[];
    var requirementCounts: Counter := map[];
    ghost var records: map<Term, Record> := map[];
    var order := Enumerate(Results(report));
    for i := 0 to |order|
      invariant records.Keys == Elements(order[..i])
      invariant CountedSoFar(report, shapes, data, digests, records, requirementCounts, signatureCounts)
    {
      var n := order[i];
      NextElement(order, i);
      var ids := IdsOfResult(report, shapes, n);
      var requirements := Update(requirementCounts, ids);
      var record := BuildRecord(report, shapes, data, digests.json, n, ids);
      var signatures := Update(signatureCounts, {digests.record(record)});
      ResultCounted(report, shapes, data, digests, records, requirementCounts, signatureCounts, n, record,
        requirements, signatures);
      requirementCounts := requirements;
      signatureCounts := signatures;
      records := records[n := record];
    }
    assert order[..|order|] == order;
    evidence := Summary(digests, requirementCounts, signatureCounts);
    AllCounted(report, shapes, data, digests, records, requirementCounts, signatureCounts, evidence);
  }

  lemma AllCounted(report: Graph, shapes: Graph, data: Graph, digests: Digests, records: map<Term, Record>,
        requirementCounts: Counter, signatureCounts: Counter, evidence: Evidence)
    requires records.Keys == Results(report)
    requires CountedSoFar(report, shapes, data, digests, records, requirementCounts, signatureCounts)
    requires Summarizes(digests, requirementCounts, signatureCounts, evidence)
    ensures IsEvidence(report, shapes, data, digests, evidence)
  {
    var signatures := Signatures(digests.record, records);
    SignaturesPartition(evidence.resultMultiset, Results(report), signatures);
    assert CountsRecords(report, shapes, digests, records, evidence);
  }

  /** Every result has one signature: the counts add up to the number of results. */
  lemma {:induction false} SignaturesPartition(entries: seq<Entry>, results: set<Term>, signatures: map<Term, string>)
    requires results <= signatures.Keys && IsMultiset(entries, results, BySignature(signatures))
    ensures Sum(entries) == |results|
    decreases |entries|
  {
    var has := BySignature(signatures);
    forall n | n in results
      ensures Entry(signatures[n], |Having(results, has, signatures[n])|) in entries
    {
      HavingOne(results, has, n, signatures[n]);
    }
    if entries == [] {
      assert results == {};
    } else {
      var head := entries[0];
      assert head in entries;
      var others := results - Having(results, has, head.text);
      assert Having(results, has, head.text) <= results;
      WithoutFirst(entries, results, signatures);
      SignaturesPartition(entries[1..], others, signatures);
    }
  }

  lemma HavingOne(results: set<Term>, has: (Term, string) -> bool, n: Term, s: string)
    requires n in results && has(n, s)
    ensures |Having(results, has, s)| > 0
  {
    assert n in Having(results, has, s);
  }

  lemma WithoutFirst(entries: seq<Entry>, results: set<Term>, signatures: map<Term, string>)
    requires IsMultiset(entries, results, BySignature(signatures)) && entries != []
    ensures var others := results - Having(results, BySignature(signatures), entries[0].text);
            IsMultiset(entries[1..], others, BySignature(signatures))
  {
    var has, head := BySignature(signatures), entries[0];
    var others := results - Having(results, has, head.text);
    assert entries == [head] + entries[1..];
    forall s
      ensures Having(others, has, s) == if s == head.text then {} else Having(results, has, s)
    {
    }
    forall e: Entry
      ensures e in entries[1..] <==> e.count == |Having(others, has, e.text)| && e.count > 0
    {
      TailElements(TEXT, entries, e);
      assert e in Elements(entries[1..]) <==> e in entries[1..];
      assert e in Elements(entries) <==> e in entries;
      assert head in entries;
    }
  }

  /** The sorted multiset is a canonical form: two reports have the same list exactly when
      every signature occurs equally often in both. */
  lemma MultisetIsCanonical(a: seq<Entry>, results: set<Term>, has: (Term, string) -> bool,
        b: seq<Entry>, results': set<Term>, has': (Term, string) -> bool)
    requires IsMultiset(a, results, has) && IsMultiset(b, results', has')
    ensures a == b <==> forall s :: |Having(results, has, s)| == |Having(results', has', s)|
  {
    if a == b {
      forall s
        ensures |Having(results, has, s)| == |Having(results', has', s)|
      {
        var e, e' := Entry(s, |Having(results, has, s)|), Entry(s, |Having(results', has', s)|);
        assert e in a <==> e.count > 0;
        assert e' in b <==> e'.count > 0;
      }
    }
    if forall s :: |Having(results, has, s)| == |Having(results', has', s)| {
      assert forall e: Entry :: e in Elements(a) <==> e in Elements(b);
      SortedIsCanonical(TEXT, a, b);
    }
  }

  /** No requirement is counted more often than there are results. */
  lemma RequirementCountBounded(evidence: Evidence, report: Graph, shapes: Graph, e: Entry)
    requires IsMultiset(evidence.requirementIdMultiset, Results(report), ById(report, shapes))
    requires evidence.resultCount == |Results(report)|
    requires e in evidence.requirementIdMultiset
    ensures 0 < e.count <= evidence.resultCount
    ensures exists n, shape, node, literal: Term :: n in Results(report) && Triple(n, SH_SOURCE_SHAPE, shape) in report
              && Walks.Reaches(ContainerEdges(shapes), shape, node)
              && literal.Literal? && Triple(node, MOLIT_REQUIREMENT_ID, literal) in shapes && Str(literal) == e.text
  {
    var having := Having(Results(report), ById(report, shapes), e.text);
    SubsetSize(having, Results(report));
    assert having != {};
    var n :| n in having;
    var shape :| shape in Objects(report, n, SH_SOURCE_SHAPE) && e.text in InheritedIds(shapes, shape);
    ObjectsMember(report, n, SH_SOURCE_SHAPE, shape);
    var t :| t in shapes && t.p == MOLIT_REQUIREMENT_ID && t.o.Literal?
             && Walks.Reaches(ContainerEdges(shapes), shape, t.s) && Str(t.o) == e.text;
    assert t == Triple(t.s, MOLIT_REQUIREMENT_ID, t.o);
  }

  lemma SubsetSize<T>(a: set<T>, b: set<T>)
    requires a <= b
    ensures |a| <= |b|
  {
    assert b == a + (b - a);
  }
}
