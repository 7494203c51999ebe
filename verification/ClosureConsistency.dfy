/** `closure_consistency_findings`: contradictions in the OWL-RL closure of a dataset. */
module ClosureConsistency {
  import opened Wrappers
  import opened Rdf
  import opened Enumeration
  import opened RdfList
  import opened Findings
  import opened Disjointness
  import Equivalence

  const OWL_NOTHING := IRI(OWL_NS + "Nothing")
  const OWL_DIFFERENT_FROM := IRI(OWL_NS + "differentFrom")
  const OWL_ALL_DIFFERENT := IRI(OWL_NS + "AllDifferent")
  const OWL_DISTINCT_MEMBERS := IRI(OWL_NS + "distinctMembers")

  predicate SameEitherWay(g: Graph, a: Term, b: Term) {
    Triple(a, Equivalence.OWL_SAME_AS, b) in g || Triple(b, Equivalence.OWL_SAME_AS, a) in g
  }

  function NothingFindings(closure: Graph, dataset: string): set<Finding> {
    set r | r in Subjects(closure, RDF_TYPE, OWL_NOTHING) :: OwlNothingInstance(dataset, TermText(r))
  }

  function DifferentFindings(closure: Graph, dataset: string): set<Finding> {
    set t | t in closure && t.p == OWL_DIFFERENT_FROM && SameEitherWay(closure, t.s, t.o)
      :: SameAndDifferentResource(dataset, TermText(t.s), TermText(t.o))
  }

  function ClassItem(closure: Graph, dataset: string, p: (Term, Term)): set<Finding> {
    set r | r in Subjects(closure, RDF_TYPE, p.0) && r in Subjects(closure, RDF_TYPE, p.1)
      :: DisjointClassInstance(dataset, TermText(r), TermText(p.0), TermText(p.1))
  }

  function PropertyItem(closure: Graph, dataset: string, p: (Term, Term)): set<Finding> {
    set so | so in SubjectObjects(closure, p.0) && so in SubjectObjects(closure, p.1)
      :: DisjointPropertyAssertion(dataset, TermText(so.0), TermText(so.1), TermText(p.0), TermText(p.1))
  }

  function SameItem(closure: Graph, dataset: string, p: (Term, Term)): set<Finding> {
    if SameEitherWay(closure, p.0, p.1) then {AllDifferentSameAs(dataset, TermText(p.0), TermText(p.1))} else {}
  }

  /** The uses of one deprecated term in a fixture. */
  function UseItem(fixture: Graph, dataset: string, term: Term): set<Finding> {
    (set s | s in Subjects(fixture, RDF_TYPE, term) :: DeprecatedClassInFixture(dataset, TermText(term), TermText(s)))
    + (set t | t in fixture && t.p == term ::
         DeprecatedPropertyInFixture(dataset, TermText(term), TermText(t.s), TermText(t.o)))
    + (set t | t in fixture && (t.s == term || (t.o == term && t.p != RDF_TYPE))
         :: DeprecatedResourceInFixture(dataset, TermText(term), TermText(t.s), TermText(t.p)))
  }

  method ForEach<T(==)>(items: set<T>, item: T -> set<Finding>) returns (findings: seq<Finding>)
    ensures Elements(findings) == Collect(items, item)
  {
    findings := [];
    var order := Enumerate(items);
    for i := 0 to |order|
      invariant Elements(findings) == Collect(Elements(order[..i]), item)
    {
      CollectStep(order, i, item);
      var found := Enumerate(item(order[i]));
      AppendElements(findings, found);
      findings := findings + found;
    }
    CollectDone(order, item);
  }

  ghost function DifferentHeads(closure: Graph): set<Term> {
    Heads(closure, OWL_ALL_DIFFERENT, {OWL_MEMBERS, OWL_DISTINCT_MEMBERS})
  }

  ghost predicate ClosureListsDecode(closure: Graph) {
    && AllHoldLists(closure, Heads(closure, OWL_ALL_DISJOINT_CLASSES, {OWL_MEMBERS}))
    && AllHoldLists(closure, Heads(closure, OWL_ALL_DISJOINT_PROPERTIES, {OWL_MEMBERS}))
    && AllHoldLists(closure, DifferentHeads(closure))
  }

  /** `f` reports on a pair that is declared disjoint. */
  ghost predicate OnDisjointPair(closure: Graph, direct: Term, kind: Term, item: ((Term, Term)) -> set<Finding>,
        f: Finding)
  {
    exists a, b :: DeclaredDisjoint(closure, direct, kind, a, b) && f in item((a, b))
  }

  ghost predicate OnListedPair(closure: Graph, heads: set<Term>, item: ((Term, Term)) -> set<Finding>, f: Finding) {
    exists a, b :: ListedInSome(closure, heads, a, b) && f in item((a, b))
  }

  function DeprecatedUses(fixture: Graph, deprecated: set<Term>, dataset: string, failOnUse: bool): set<Finding> {
    if failOnUse then set term, f | term in deprecated && f in UseItem(fixture, dataset, term) :: f else {}
  }

  ghost predicate IsClassFinding(closure: Graph, dataset: string, f: Finding) {
    OnDisjointPair(closure, OWL_DISJOINT_WITH, OWL_ALL_DISJOINT_CLASSES, p => ClassItem(closure, dataset, p), f)
  }

  ghost predicate IsPropertyFinding(closure: Graph, dataset: string, f: Finding) {
    OnDisjointPair(closure, OWL_PROPERTY_DISJOINT_WITH, OWL_ALL_DISJOINT_PROPERTIES,
      p => PropertyItem(closure, dataset, p), f)
  }

  ghost predicate IsSameFinding(closure: Graph, dataset: string, f: Finding) {
    OnListedPair(closure, DifferentHeads(closure), p => SameItem(closure, dataset, p), f)
  }

  /** The findings that the closure check reports. */
  ghost predicate IsClosureFinding(closure: Graph, fixture: Graph, deprecated: set<Term>, dataset: string,
        failOnUse: bool, f: Finding)
  {
    || f in NothingFindings(closure, dataset)
    || IsClassFinding(closure, dataset, f)
    || IsPropertyFinding(closure, dataset, f)
    || f in DifferentFindings(closure, dataset)
    || IsSameFinding(closure, dataset, f)
    || f in DeprecatedUses(fixture, deprecated, dataset, failOnUse)
  }

  method DisjointPairFindings(closure: Graph, direct: Term, kind: Term, item: ((Term, Term)) -> set<Finding>)
    returns (r: Result<seq<Finding>, ListError>)
    ensures r.Ok? <==> AllHoldLists(closure, Heads(closure, kind, {OWL_MEMBERS}))
    ensures r.Ok? ==> forall f :: f in r.value <==> OnDisjointPair(closure, direct, kind, item, f)
  {
    var pairs := DisjointPairs(closure, direct, kind);
    if pairs.Err? {
      return Err(pairs.error);
    }
    var findings := ForEach(pairs.value, item);
    forall f
      ensures f in findings <==> OnDisjointPair(closure, direct, kind, item, f)
    {
      assert f in findings <==> f in Elements(findings);
      if f in findings {
        var p :| p in pairs.value && f in item(p);
        assert p == (p.0, p.1);
      }
      if a, b :| DeclaredDisjoint(closure, direct, kind, a, b) && f in item((a, b)) {
        assert (a, b) in pairs.value;
      }
    }
    return Ok(findings);
  }

  method ListedPairFindings(closure: Graph, heads: set<Term>, item: ((Term, Term)) -> set<Finding>)
    returns (r: Result<seq<Finding>, ListError>)
    ensures r.Ok? <==> AllHoldLists(closure, heads)
    ensures r.Ok? ==> forall f :: f in r.value <==> OnListedPair(closure, heads, item, f)
  {
    var pairs := ListedPairs(closure, heads);
    if pairs.Err? {
      return Err(pairs.error);
    }
    var findings := ForEach(pairs.value, item);
    forall f
      ensures f in findings <==> OnListedPair(closure, heads, item, f)
    {
      assert f in findings <==> f in Elements(findings);
      if f in findings {
        var p :| p in pairs.value && f in item(p);
        assert p == (p.0, p.1);
      }
      if a, b :| ListedInSome(closure, heads, a, b) && f in item((a, b)) {
        assert (a, b) in pairs.value;
      }
    }
    return Ok(findings);
  }

  method ClosureFindings(closure: Graph, fixture: Graph, deprecated: set<Term>, dataset: string, failOnUse: bool)
    returns (r: Result<seq<Finding>, ListError>)
    ensures r.Ok? <==> ClosureListsDecode(closure)
    ensures r.Ok? ==>
      forall f :: f in r.value <==> IsClosureFinding(closure, fixture, deprecated, dataset, failOnUse, f)
  {
    var nothing := Enumerate(NothingFindings(closure, dataset));
    var classes := DisjointPairFindings(closure, OWL_DISJOINT_WITH, OWL_ALL_DISJOINT_CLASSES,
      p => ClassItem(closure, dataset, p));
    if classes.Err? {
      return classes;
    }
    var properties := DisjointPairFindings(closure, OWL_PROPERTY_DISJOINT_WITH, OWL_ALL_DISJOINT_PROPERTIES,
      p => PropertyItem(closure, dataset, p));
    if properties.Err? {
      return properties;
    }
    var different := Enumerate(DifferentFindings(closure, dataset));
    var same := ListedPairFindings(closure, Heads(closure, OWL_ALL_DIFFERENT, {OWL_MEMBERS, OWL_DISTINCT_MEMBERS}),
      p => SameItem(closure, dataset, p));
    if same.Err? {
      return same;
    }
    var uses := Enumerate(DeprecatedUses(fixture, deprecated, dataset, failOnUse));
    var findings := nothing + classes.value + properties.value + different + same.value + uses;
    forall f
      ensures f in findings <==> IsClosureFinding(closure, fixture, deprecated, dataset, failOnUse, f)
    {
      assert f in nothing <==> f in Elements(nothing);
      assert f in different <==> f in Elements(different);
      assert f in uses <==> f in Elements(uses);
    }
    return Ok(findings);
  }

  // ----- what a silent check means

  /** Two positions of one list of the group. */
  ghost predicate ListedTogether(g: Graph, heads: set<Term>, a: Term, b: Term) {
    exists head, values, i, j ::
      head in heads && IsList(g, head, values) && 0 <= i < |values| && 0 <= j < |values| && i != j
      && values[i] == a && values[j] == b
  }

  /** Disjoint as OWL means it: the relation has no direction. */
  ghost predicate Disjoint(g: Graph, direct: Term, kind: Term, a: Term, b: Term) {
    Triple(a, direct, b) in g || Triple(b, direct, a) in g || ListedTogether(g, Heads(g, kind, {OWL_MEMBERS}), a, b)
  }

  lemma ListedTogetherIsEitherWay(g: Graph, heads: set<Term>, a: Term, b: Term)
    ensures ListedTogether(g, heads, a, b) <==> ListedInSome(g, heads, a, b) || ListedInSome(g, heads, b, a)
  {
  }

  lemma DisjointIsEitherWay(g: Graph, direct: Term, kind: Term, a: Term, b: Term)
    ensures Disjoint(g, direct, kind, a, b)
       <==> DeclaredDisjoint(g, direct, kind, a, b) || DeclaredDisjoint(g, direct, kind, b, a)
  {
  }

  lemma ClassSilent(closure: Graph, dataset: string)
    ensures (forall f :: !IsClassFinding(closure, dataset, f))
       <==> forall r, a, b :: Disjoint(closure, OWL_DISJOINT_WITH, OWL_ALL_DISJOINT_CLASSES, a, b)
              ==> !(Triple(r, RDF_TYPE, a) in closure && Triple(r, RDF_TYPE, b) in closure)
  {
    var item := p => ClassItem(closure, dataset, p);
    forall a, b, r
      ensures r in Subjects(closure, RDF_TYPE, a) && r in Subjects(closure, RDF_TYPE, b)
         <==> Triple(r, RDF_TYPE, a) in closure && Triple(r, RDF_TYPE, b) in closure
    {
      SubjectsMember(closure, RDF_TYPE, a, r);
      SubjectsMember(closure, RDF_TYPE, b, r);
    }
    if forall f :: !IsClassFinding(closure, dataset, f) {
      forall r, a, b | DeclaredDisjoint(closure, OWL_DISJOINT_WITH, OWL_ALL_DISJOINT_CLASSES, a, b)
        ensures !(Triple(r, RDF_TYPE, a) in closure && Triple(r, RDF_TYPE, b) in closure)
      {
        var f := DisjointClassInstance(dataset, TermText(r), TermText(a), TermText(b));
        assert !IsClassFinding(closure, dataset, f);
        assert f !in item((a, b));
      }
      forall r, a, b | Disjoint(closure, OWL_DISJOINT_WITH, OWL_ALL_DISJOINT_CLASSES, a, b)
        ensures !(Triple(r, RDF_TYPE, a) in closure && Triple(r, RDF_TYPE, b) in closure)
      {
        DisjointIsEitherWay(closure, OWL_DISJOINT_WITH, OWL_ALL_DISJOINT_CLASSES, a, b);
      }
    } else {
      var f :| IsClassFinding(closure, dataset, f);
      var a, b :| DeclaredDisjoint(closure, OWL_DISJOINT_WITH, OWL_ALL_DISJOINT_CLASSES, a, b) && f in item((a, b));
      DisjointIsEitherWay(closure, OWL_DISJOINT_WITH, OWL_ALL_DISJOINT_CLASSES, a, b);
    }
  }

  lemma PropertySilent(closure: Graph, dataset: string)
    ensures (forall f :: !IsPropertyFinding(closure, dataset, f))
       <==> forall s, o, a, b :: Disjoint(closure, OWL_PROPERTY_DISJOINT_WITH, OWL_ALL_DISJOINT_PROPERTIES, a, b)
              ==> !(Triple(s, a, o) in closure && Triple(s, b, o) in closure)
  {
    var item := p => PropertyItem(closure, dataset, p);
    forall a, b, s, o
      ensures (s, o) in SubjectObjects(closure, a) && (s, o) in SubjectObjects(closure, b)
         <==> Triple(s, a, o) in closure && Triple(s, b, o) in closure
    {
      SubjectObjectsMember(closure, a, s, o);
      SubjectObjectsMember(closure, b, s, o);
    }
    if forall f :: !IsPropertyFinding(closure, dataset, f) {
      forall s, o, a, b | DeclaredDisjoint(closure, OWL_PROPERTY_DISJOINT_WITH, OWL_ALL_DISJOINT_PROPERTIES, a, b)
        ensures !(Triple(s, a, o) in closure && Triple(s, b, o) in closure)
      {
        var f := DisjointPropertyAssertion(dataset, TermText((s, o).0), TermText((s, o).1), TermText(a), TermText(b));
        assert !IsPropertyFinding(closure, dataset, f);
        assert f !in item((a, b));
      }
      forall s, o, a, b | Disjoint(closure, OWL_PROPERTY_DISJOINT_WITH, OWL_ALL_DISJOINT_PROPERTIES, a, b)
        ensures !(Triple(s, a, o) in closure && Triple(s, b, o) in closure)
      {
        DisjointIsEitherWay(closure, OWL_PROPERTY_DISJOINT_WITH, OWL_ALL_DISJOINT_PROPERTIES, a, b);
      }
    } else {
      var f :| IsPropertyFinding(closure, dataset, f);
      var a, b :| DeclaredDisjoint(closure, OWL_PROPERTY_DISJOINT_WITH, OWL_ALL_DISJOINT_PROPERTIES, a, b)
        && f in item((a, b));
      DisjointIsEitherWay(closure, OWL_PROPERTY_DISJOINT_WITH, OWL_ALL_DISJOINT_PROPERTIES, a, b);
    }
  }

  lemma AllDifferentSilent(closure: Graph, dataset: string)
    ensures (forall f :: !IsSameFinding(closure, dataset, f))
       <==> forall a, b :: ListedTogether(closure, DifferentHeads(closure), a, b) ==> !SameEitherWay(closure, a, b)
  {
    forall a, b | ListedTogether(closure, DifferentHeads(closure), a, b) && SameEitherWay(closure, a, b)
      ensures exists f :: IsSameFinding(closure, dataset, f)
    {
      ListedTogetherIsEitherWay(closure, DifferentHeads(closure), a, b);
      SamePairReported(closure, dataset, a, b);
      SamePairReported(closure, dataset, b, a);
    }
    forall f | IsSameFinding(closure, dataset, f)
      ensures exists a, b :: ListedTogether(closure, DifferentHeads(closure), a, b) && SameEitherWay(closure, a, b)
    {
      SameFindingHasPair(closure, dataset, f);
    }
  }

  lemma SameFindingHasPair(closure: Graph, dataset: string, f: Finding)
    requires IsSameFinding(closure, dataset, f)
    ensures exists a, b :: ListedTogether(closure, DifferentHeads(closure), a, b) && SameEitherWay(closure, a, b)
  {
  }

  lemma SamePairReported(closure: Graph, dataset: string, a: Term, b: Term)
    ensures ListedInSome(closure, DifferentHeads(closure), a, b) && SameEitherWay(closure, a, b)
       ==> IsSameFinding(closure, dataset, AllDifferentSameAs(dataset, TermText(a), TermText(b)))
  {
  }

  /** The three use checks together: no triple mentions a deprecated term in any position. */
  lemma DeprecatedUseSilent(fixture: Graph, deprecated: set<Term>, dataset: string)
    ensures DeprecatedUses(fixture, deprecated, dataset, true) == {}
       <==> forall t | t in fixture :: t.s !in deprecated && t.p !in deprecated && t.o !in deprecated
  {
    var found := DeprecatedUses(fixture, deprecated, dataset, true);
    if found == {} {
      forall t | t in fixture
        ensures t.s !in deprecated && t.p !in deprecated && t.o !in deprecated
      {
        if t.s in deprecated || t.p in deprecated || t.o in deprecated {
          MentionIsReported(fixture, deprecated, dataset, t);
        }
      }
    } else {
      var f :| f in found;
      var term :| term in deprecated && f in UseItem(fixture, dataset, term);
      if s :| s in Subjects(fixture, RDF_TYPE, term)
              && f == DeprecatedClassInFixture(dataset, TermText(term), TermText(s)) {
        SubjectsMember(fixture, RDF_TYPE, term, s);
        assert Triple(s, RDF_TYPE, term).o in deprecated;
      }
    }
  }

  lemma MentionIsReported(fixture: Graph, deprecated: set<Term>, dataset: string, t: Triple)
    requires t in fixture && (t.s in deprecated || t.p in deprecated || t.o in deprecated)
    ensures DeprecatedUses(fixture, deprecated, dataset, true) != {}
  {
    var term, f;
    if t.s in deprecated {
      term, f := t.s, DeprecatedResourceInFixture(dataset, TermText(t.s), TermText(t.s), TermText(t.p));
    } else if t.p in deprecated {
      term, f := t.p, DeprecatedPropertyInFixture(dataset, TermText(t.p), TermText(t.s), TermText(t.o));
    } else if t.p != RDF_TYPE {
      term, f := t.o, DeprecatedResourceInFixture(dataset, TermText(t.o), TermText(t.s), TermText(t.p));
    } else {
      SubjectsMember(fixture, RDF_TYPE, t.o, t.s);
      term, f := t.o, DeprecatedClassInFixture(dataset, TermText(t.o), TermText(t.s));
    }
    assert term in deprecated && f in UseItem(fixture, dataset, term);
    assert f in DeprecatedUses(fixture, deprecated, dataset, true);
  }

  ghost predicate ClosureConsistent(closure: Graph, fixture: Graph, deprecated: set<Term>, failOnUse: bool) {
    && (forall r :: Triple(r, RDF_TYPE, OWL_NOTHING) !in closure)
    && (forall r, a, b :: Disjoint(closure, OWL_DISJOINT_WITH, OWL_ALL_DISJOINT_CLASSES, a, b)
          ==> !(Triple(r, RDF_TYPE, a) in closure && Triple(r, RDF_TYPE, b) in closure))
    && (forall s, o, a, b :: Disjoint(closure, OWL_PROPERTY_DISJOINT_WITH, OWL_ALL_DISJOINT_PROPERTIES, a, b)
          ==> !(Triple(s, a, o) in closure && Triple(s, b, o) in closure))
    && (forall a, b :: Triple(a, OWL_DIFFERENT_FROM, b) in closure ==> !SameEitherWay(closure, a, b))
    && (forall a, b :: ListedTogether(closure, DifferentHeads(closure), a, b) ==> !SameEitherWay(closure, a, b))
    && (failOnUse ==> forall t | t in fixture :: t.s !in deprecated && t.p !in deprecated && t.o !in deprecated)
  }

  lemma NothingSilent(closure: Graph, dataset: string)
    ensures NothingFindings(closure, dataset) == {} <==> forall r :: Triple(r, RDF_TYPE, OWL_NOTHING) !in closure
  {
    forall r
      ensures r in Subjects(closure, RDF_TYPE, OWL_NOTHING) <==> Triple(r, RDF_TYPE, OWL_NOTHING) in closure
    {
      SubjectsMember(closure, RDF_TYPE, OWL_NOTHING, r);
    }
    if NothingFindings(closure, dataset) == {} {
      forall r
        ensures r !in Subjects(closure, RDF_TYPE, OWL_NOTHING)
      {
        assert OwlNothingInstance(dataset, TermText(r)) !in NothingFindings(closure, dataset);
      }
    }
  }

  lemma DifferentSilent(closure: Graph, dataset: string)
    ensures DifferentFindings(closure, dataset) == {}
       <==> forall a, b :: Triple(a, OWL_DIFFERENT_FROM, b) in closure ==> !SameEitherWay(closure, a, b)
  {
    if DifferentFindings(closure, dataset) == {} {
      forall a, b | Triple(a, OWL_DIFFERENT_FROM, b) in closure
        ensures !SameEitherWay(closure, a, b)
      {
        var t := Triple(a, OWL_DIFFERENT_FROM, b);
        assert SameAndDifferentResource(dataset, TermText(t.s), TermText(t.o)) !in DifferentFindings(closure, dataset);
      }
    } else {
      var f :| f in DifferentFindings(closure, dataset);
      var t :| t in closure && t.p == OWL_DIFFERENT_FROM && SameEitherWay(closure, t.s, t.o);
      assert Triple(t.s, OWL_DIFFERENT_FROM, t.o) in closure;
    }
  }

  /** The closure check reports nothing exactly on a consistent closure. */
  lemma ClosureVerdict(closure: Graph, fixture: Graph, deprecated: set<Term>, dataset: string, failOnUse: bool)
    ensures (forall f :: !IsClosureFinding(closure, fixture, deprecated, dataset, failOnUse, f))
       <==> ClosureConsistent(closure, fixture, deprecated, failOnUse)
  {
    NothingSilent(closure, dataset);
    ClassSilent(closure, dataset);
    PropertySilent(closure, dataset);
    DifferentSilent(closure, dataset);
    AllDifferentSilent(closure, dataset);
    DeprecatedUseSilent(fixture, deprecated, dataset);
    SilentByPart(closure, fixture, deprecated, dataset, failOnUse);
  }

  lemma SilentByPart(closure: Graph, fixture: Graph, deprecated: set<Term>, dataset: string, failOnUse: bool)
    ensures (forall f :: !IsClosureFinding(closure, fixture, deprecated, dataset, failOnUse, f))
       <==> (&& NothingFindings(closure, dataset) == {}
             && (forall f :: !IsClassFinding(closure, dataset, f))
             && (forall f :: !IsPropertyFinding(closure, dataset, f))
             && DifferentFindings(closure, dataset) == {}
             && (forall f :: !IsSameFinding(closure, dataset, f))
             && DeprecatedUses(fixture, deprecated, dataset, failOnUse) == {})
  {
    forall f
      ensures f in NothingFindings(closure, dataset) || f in DifferentFindings(closure, dataset)
              || f in DeprecatedUses(fixture, deprecated, dataset, failOnUse)
              || IsClassFinding(closure, dataset, f) || IsPropertyFinding(closure, dataset, f)
              || IsSameFinding(closure, dataset, f)
         ==> IsClosureFinding(closure, fixture, deprecated, dataset, failOnUse, f)
    {
    }
  }
}
