/** The closure findings read off the triples, one kind at a time. */
module ClosureReading {
  import opened Rdf
  import opened Findings
  import opened Disjointness
  import opened ClosureConsistency
  import opened Vocabulary
  import opened SchemaReading

  predicate IsUseKind(f: Finding) {
    f.DeprecatedClassInFixture? || f.DeprecatedPropertyInFixture? || f.DeprecatedResourceInFixture?
  }

  lemma PairKinds(closure: Graph, dataset: string, p: (Term, Term), f: Finding)
    ensures f in ClassItem(closure, dataset, p) ==> f.DisjointClassInstance?
    ensures f in PropertyItem(closure, dataset, p) ==> f.DisjointPropertyAssertion?
    ensures f in SameItem(closure, dataset, p) ==> f.AllDifferentSameAs?
  {
  }

  lemma ClassFindingKind(closure: Graph, dataset: string, f: Finding)
    ensures IsClassFinding(closure, dataset, f) ==> f.DisjointClassInstance?
  {
    forall p
      ensures f in ClassItem(closure, dataset, p) ==> f.DisjointClassInstance?
    {
      PairKinds(closure, dataset, p, f);
    }
  }

  lemma PropertyFindingKind(closure: Graph, dataset: string, f: Finding)
    ensures IsPropertyFinding(closure, dataset, f) ==> f.DisjointPropertyAssertion?
  {
    forall p
      ensures f in PropertyItem(closure, dataset, p) ==> f.DisjointPropertyAssertion?
    {
      PairKinds(closure, dataset, p, f);
    }
  }

  lemma SameFindingKind(closure: Graph, dataset: string, f: Finding)
    ensures IsSameFinding(closure, dataset, f) ==> f.AllDifferentSameAs?
  {
    forall p
      ensures f in SameItem(closure, dataset, p) ==> f.AllDifferentSameAs?
    {
      PairKinds(closure, dataset, p, f);
    }
  }

  lemma ResourceKinds(closure: Graph, dataset: string, f: Finding)
    ensures f in NothingFindings(closure, dataset) ==> f.OwlNothingInstance?
    ensures f in DifferentFindings(closure, dataset) ==> f.SameAndDifferentResource?
  {
  }

  lemma UseKinds(fixture: Graph, deprecated: set<Term>, dataset: string, failOnUse: bool, f: Finding)
    ensures f in DeprecatedUses(fixture, deprecated, dataset, failOnUse) ==> IsUseKind(f)
  {
    forall term
      ensures f in UseItem(fixture, dataset, term) ==> IsUseKind(f)
    {
      UseKind(fixture, dataset, term, f);
    }
  }

  lemma UseKind(fixture: Graph, dataset: string, term: Term, f: Finding)
    ensures f in UseItem(fixture, dataset, term) ==> IsUseKind(f)
  {
  }

  /** Which of the checks reports a kind of finding. */
  lemma ReportedBy(closure: Graph, fixture: Graph, deprecated: set<Term>, dataset: string, failOnUse: bool, f: Finding)
    ensures IsClosureFinding(closure, fixture, deprecated, dataset, failOnUse, f)
       <==> if f.OwlNothingInstance? then f in NothingFindings(closure, dataset)
            else if f.DisjointClassInstance? then IsClassFinding(closure, dataset, f)
            else if f.DisjointPropertyAssertion? then IsPropertyFinding(closure, dataset, f)
            else if f.SameAndDifferentResource? then f in DifferentFindings(closure, dataset)
            else if f.AllDifferentSameAs? then IsSameFinding(closure, dataset, f)
            else IsUseKind(f) && f in DeprecatedUses(fixture, deprecated, dataset, failOnUse)
  {
    ClassFindingKind(closure, dataset, f);
    PropertyFindingKind(closure, dataset, f);
    SameFindingKind(closure, dataset, f);
    ResourceKinds(closure, dataset, f);
    UseKinds(fixture, deprecated, dataset, failOnUse, f);
  }

  lemma NothingByTriples(closure: Graph, fixture: Graph, deprecated: set<Term>, dataset: string, failOnUse: bool,
        ds: string, x: string)
    ensures IsClosureFinding(closure, fixture, deprecated, dataset, failOnUse, OwlNothingInstance(ds, x))
       <==> exists r :: Triple(r, RdfName("type"), OwlName("Nothing")) in closure && ds == dataset && x == TermText(r)
  {
    ReportedBy(closure, fixture, deprecated, dataset, failOnUse, OwlNothingInstance(ds, x));
    RdfTexts();
    ClosureTexts();
    forall r
      ensures r in Subjects(closure, RDF_TYPE, OWL_NOTHING) <==> Triple(r, RDF_TYPE, OWL_NOTHING) in closure
    {
      SubjectsMember(closure, RDF_TYPE, OWL_NOTHING, r);
    }
  }

  // the disjointness checks

  /** `r` is an instance of two classes declared disjoint. */
  ghost predicate InBoth(closure: Graph, r: Term, a: Term, b: Term) {
    && DisjointPair(closure, OwlName("disjointWith"), OwlName("AllDisjointClasses"), a, b)
    && Triple(r, RdfName("type"), a) in closure && Triple(r, RdfName("type"), b) in closure
  }

  lemma ClassItemByTriples(closure: Graph, dataset: string, a: Term, b: Term, ds: string, x: string, y: string,
        z: string)
    ensures DisjointClassInstance(ds, x, y, z) in ClassItem(closure, dataset, (a, b))
       <==> exists r :: Triple(r, RdfName("type"), a) in closure && Triple(r, RdfName("type"), b) in closure
              && ds == dataset && x == TermText(r) && y == TermText(a) && z == TermText(b)
  {
    RdfTexts();
    forall r
      ensures r in Subjects(closure, RDF_TYPE, a) <==> Triple(r, RDF_TYPE, a) in closure
      ensures r in Subjects(closure, RDF_TYPE, b) <==> Triple(r, RDF_TYPE, b) in closure
    {
      SubjectsMember(closure, RDF_TYPE, a, r);
      SubjectsMember(closure, RDF_TYPE, b, r);
    }
  }

  lemma DisjointClassesByTriples(closure: Graph, fixture: Graph, deprecated: set<Term>, dataset: string,
        failOnUse: bool,
        ds: string, x: string, y: string, z: string)
    ensures IsClosureFinding(closure, fixture, deprecated, dataset, failOnUse, DisjointClassInstance(ds, x, y, z))
       <==> exists r, a, b :: InBoth(closure, r, a, b)
              && ds == dataset && x == TermText(r) && y == TermText(a) && z == TermText(b)
  {
    var f := DisjointClassInstance(ds, x, y, z);
    ReportedBy(closure, fixture, deprecated, dataset, failOnUse, f);
    OwlTexts();
    if a, b :| DeclaredDisjoint(closure, OWL_DISJOINT_WITH, OWL_ALL_DISJOINT_CLASSES, a, b)
               && f in ClassItem(closure, dataset, (a, b)) {
      ClassItemByTriples(closure, dataset, a, b, ds, x, y, z);
      DisjointByTriples(closure, OWL_DISJOINT_WITH, OWL_ALL_DISJOINT_CLASSES, a, b);
      var r :| Triple(r, RdfName("type"), a) in closure && Triple(r, RdfName("type"), b) in closure && x == TermText(r);
      assert InBoth(closure, r, a, b);
    }
    if r, a, b :| InBoth(closure, r, a, b)
                  && ds == dataset && x == TermText(r) && y == TermText(a) && z == TermText(b) {
      ClassItemByTriples(closure, dataset, a, b, ds, x, y, z);
      DisjointByTriples(closure, OWL_DISJOINT_WITH, OWL_ALL_DISJOINT_CLASSES, a, b);
      assert f in ClassItem(closure, dataset, (a, b));
    }
  }

  /** Subject and value are joined by two properties declared disjoint. */
  ghost predicate JoinedByBoth(closure: Graph, s: Term, o: Term, a: Term, b: Term) {
    && DisjointPair(closure, OwlName("propertyDisjointWith"), OwlName("AllDisjointProperties"), a, b)
    && Triple(s, a, o) in closure && Triple(s, b, o) in closure
  }

  lemma PropertyItemByTriples(closure: Graph, dataset: string, a: Term, b: Term, ds: string, w: string, x: string,
        y: string,
        z: string)
    ensures DisjointPropertyAssertion(ds, w, x, y, z) in PropertyItem(closure, dataset, (a, b))
       <==> exists s, o :: Triple(s, a, o) in closure && Triple(s, b, o) in closure
              && ds == dataset && w == TermText(s) && x == TermText(o) && y == TermText(a) && z == TermText(b)
  {
    forall s, o
      ensures (s, o) in SubjectObjects(closure, a) <==> Triple(s, a, o) in closure
      ensures (s, o) in SubjectObjects(closure, b) <==> Triple(s, b, o) in closure
    {
      SubjectObjectsMember(closure, a, s, o);
      SubjectObjectsMember(closure, b, s, o);
    }
  }

  lemma DisjointPropertiesByTriples(closure: Graph, fixture: Graph, deprecated: set<Term>, dataset: string,
        failOnUse: bool, ds: string, w: string, x: string, y: string, z: string)
    ensures IsClosureFinding(closure, fixture, deprecated, dataset, failOnUse,
      DisjointPropertyAssertion(ds, w, x, y, z))
       <==> exists s, o, a, b :: JoinedByBoth(closure, s, o, a, b)
              && ds == dataset && w == TermText(s) && x == TermText(o) && y == TermText(a) && z == TermText(b)
  {
    var f := DisjointPropertyAssertion(ds, w, x, y, z);
    ReportedBy(closure, fixture, deprecated, dataset, failOnUse, f);
    OwlTexts();
    if a, b :| DeclaredDisjoint(closure, OWL_PROPERTY_DISJOINT_WITH, OWL_ALL_DISJOINT_PROPERTIES, a, b)
               && f in PropertyItem(closure, dataset, (a, b)) {
      PropertyItemByTriples(closure, dataset, a, b, ds, w, x, y, z);
      DisjointByTriples(closure, OWL_PROPERTY_DISJOINT_WITH, OWL_ALL_DISJOINT_PROPERTIES, a, b);
      var s, o :| Triple(s, a, o) in closure && Triple(s, b, o) in closure && w == TermText(s) && x == TermText(o);
      assert JoinedByBoth(closure, s, o, a, b);
    }
    if s, o, a, b :| JoinedByBoth(closure, s, o, a, b)
                     && ds == dataset && w == TermText(s) && x == TermText(o) && y == TermText(a) && z == TermText(b) {
      PropertyItemByTriples(closure, dataset, a, b, ds, w, x, y, z);
      DisjointByTriples(closure, OWL_PROPERTY_DISJOINT_WITH, OWL_ALL_DISJOINT_PROPERTIES, a, b);
      assert f in PropertyItem(closure, dataset, (a, b));
    }
  }

  // the identity checks

  ghost predicate Same(closure: Graph, a: Term, b: Term) {
    Triple(a, OwlName("sameAs"), b) in closure || Triple(b, OwlName("sameAs"), a) in closure
  }

  lemma DifferentByTriples(closure: Graph, fixture: Graph, deprecated: set<Term>, dataset: string, failOnUse: bool,
        ds: string, x: string, y: string)
    ensures IsClosureFinding(closure, fixture, deprecated, dataset, failOnUse, SameAndDifferentResource(ds, x, y))
       <==> exists a, b :: Triple(a, OwlName("differentFrom"), b) in closure && Same(closure, a, b)
              && ds == dataset && x == TermText(a) && y == TermText(b)
  {
    ReportedBy(closure, fixture, deprecated, dataset, failOnUse, SameAndDifferentResource(ds, x, y));
    OwlTexts();
    ClosureTexts();
    forall t | t in closure && t.p == OWL_DIFFERENT_FROM
      ensures t == Triple(t.s, OwlName("differentFrom"), t.o)
    {
    }
  }

  /** Two positions of a list of an AllDifferent node, named by either predicate. */
  ghost predicate ListedDifferent(closure: Graph, a: Term, b: Term) {
    || ListedPair(closure, OwlName("AllDifferent"), OwlName("members"), a, b)
    || ListedPair(closure, OwlName("AllDifferent"), OwlName("distinctMembers"), a, b)
  }

  lemma ListedDifferentByTriples(closure: Graph, a: Term, b: Term)
    ensures ListedInSome(closure, DifferentHeads(closure), a, b) <==> ListedDifferent(closure, a, b)
  {
    OwlTexts();
    ClosureTexts();
    PairsByTriples(closure, OWL_ALL_DIFFERENT, {OWL_MEMBERS, OWL_DISTINCT_MEMBERS}, a, b);
  }

  lemma SameItemByTriples(closure: Graph, dataset: string, a: Term, b: Term, ds: string, x: string, y: string)
    ensures AllDifferentSameAs(ds, x, y) in SameItem(closure, dataset, (a, b))
       <==> Same(closure, a, b) && ds == dataset && x == TermText(a) && y == TermText(b)
  {
    OwlTexts();
  }

  lemma SameFindingByItems(closure: Graph, dataset: string, f: Finding)
    ensures IsSameFinding(closure, dataset, f)
       <==> exists a, b :: ListedDifferent(closure, a, b) && f in SameItem(closure, dataset, (a, b))
  {
    forall a, b
      ensures ListedInSome(closure, DifferentHeads(closure), a, b) <==> ListedDifferent(closure, a, b)
    {
      ListedDifferentByTriples(closure, a, b);
    }
  }

  lemma AllDifferentByTriples(closure: Graph, fixture: Graph, deprecated: set<Term>, dataset: string, failOnUse: bool,
        ds: string, x: string, y: string)
    ensures IsClosureFinding(closure, fixture, deprecated, dataset, failOnUse, AllDifferentSameAs(ds, x, y))
       <==> exists a, b :: ListedDifferent(closure, a, b) && Same(closure, a, b)
              && ds == dataset && x == TermText(a) && y == TermText(b)
  {
    ReportedBy(closure, fixture, deprecated, dataset, failOnUse, AllDifferentSameAs(ds, x, y));
    SameFindingByItems(closure, dataset, AllDifferentSameAs(ds, x, y));
    forall a, b
      ensures AllDifferentSameAs(ds, x, y) in SameItem(closure, dataset, (a, b))
         <==> Same(closure, a, b) && ds == dataset && x == TermText(a) && y == TermText(b)
    {
      SameItemByTriples(closure, dataset, a, b, ds, x, y);
    }
  }

  // uses of deprecated terms

  lemma UsesByTriples(closure: Graph, fixture: Graph, deprecated: set<Term>, dataset: string, failOnUse: bool,
        ds: string, x: string, y: string, z: string)
    ensures IsClosureFinding(closure, fixture, deprecated, dataset, failOnUse, DeprecatedClassInFixture(ds, x, y))
       <==> failOnUse && exists t, s :: t in deprecated && Triple(s, RdfName("type"), t) in fixture
                           && ds == dataset && x == TermText(t) && y == TermText(s)
    ensures IsClosureFinding(closure, fixture, deprecated, dataset, failOnUse, DeprecatedPropertyInFixture(ds, x, y, z))
       <==> failOnUse && exists t, s, o :: t in deprecated && Triple(s, t, o) in fixture
                           && ds == dataset && x == TermText(t) && y == TermText(s) && z == TermText(o)
  {
    RdfTexts();
    ReportedBy(closure, fixture, deprecated, dataset, failOnUse, DeprecatedClassInFixture(ds, x, y));
    ReportedBy(closure, fixture, deprecated, dataset, failOnUse, DeprecatedPropertyInFixture(ds, x, y, z));
    forall t
      ensures DeprecatedClassInFixture(ds, x, y) in UseItem(fixture, dataset, t)
         <==> exists s :: Triple(s, RdfName("type"), t) in fixture
                && ds == dataset && x == TermText(t) && y == TermText(s)
      ensures DeprecatedPropertyInFixture(ds, x, y, z) in UseItem(fixture, dataset, t)
         <==> exists s, o :: Triple(s, t, o) in fixture && ds == dataset && x == TermText(t) && y == TermText(s)
                && z == TermText(o)
    {
      UseIn(fixture, dataset, t, ds, x, y, z);
    }
  }

  lemma UseIn(fixture: Graph, dataset: string, t: Term, ds: string, x: string, y: string, z: string)
    ensures DeprecatedClassInFixture(ds, x, y) in UseItem(fixture, dataset, t)
       <==> exists s :: Triple(s, RdfName("type"), t) in fixture
              && ds == dataset && x == TermText(t) && y == TermText(s)
    ensures DeprecatedPropertyInFixture(ds, x, y, z) in UseItem(fixture, dataset, t)
       <==> exists s, o :: Triple(s, t, o) in fixture && ds == dataset && x == TermText(t) && y == TermText(s)
              && z == TermText(o)
  {
    RdfTexts();
    forall s
      ensures s in Subjects(fixture, RDF_TYPE, t) <==> Triple(s, RDF_TYPE, t) in fixture
    {
      SubjectsMember(fixture, RDF_TYPE, t, s);
    }
    forall u | u in fixture && u.p == t
      ensures u == Triple(u.s, t, u.o)
    {
    }
  }

  /** A term mentioned as subject, or as value of anything but a type. */
  ghost predicate Mentions(u: Triple, t: Term) {
    u.s == t || (u.o == t && u.p != RdfName("type"))
  }

  lemma MentionsByTriples(closure: Graph, fixture: Graph, deprecated: set<Term>, dataset: string, failOnUse: bool,
        ds: string, x: string, y: string, z: string)
    ensures IsClosureFinding(closure, fixture, deprecated, dataset, failOnUse, DeprecatedResourceInFixture(ds, x, y, z))
       <==> failOnUse && exists t, u :: t in deprecated && u in fixture && Mentions(u, t)
                           && ds == dataset && x == TermText(t) && y == TermText(u.s) && z == TermText(u.p)
  {
    RdfTexts();
    ReportedBy(closure, fixture, deprecated, dataset, failOnUse, DeprecatedResourceInFixture(ds, x, y, z));
    forall t
      ensures DeprecatedResourceInFixture(ds, x, y, z) in UseItem(fixture, dataset, t)
         <==> exists u :: u in fixture && Mentions(u, t)
                && ds == dataset && x == TermText(t) && y == TermText(u.s) && z == TermText(u.p)
    {
    }
  }
}
