/** The path decoder read off the triples: which predicate makes which kind of path, which of
    several wins, and which operand is taken. */
module PathReading {
  import opened Wrappers
  import opened Rdf
  import opened ResultPath
  import opened PathAnswers
  import opened Vocabulary

  ghost predicate HasIn(g: Graph, s: Term, p: Term) {
    exists o :: Triple(s, p, o) in g
  }

  ghost predicate HasAny(gs: seq<Graph>, s: Term, p: Term) {
    exists i :: 0 <= i < |gs| && HasIn(gs[i], s, p)
  }

  ghost predicate LeadsAt(gs: seq<Graph>, s: Term, p: Term, v: Term, i: nat) {
    i < |gs| && Triple(s, p, v) in gs[i] && forall j | 0 <= j < i :: !HasIn(gs[j], s, p)
  }

  /** The first graph that has a value of the predicate has this one. */
  ghost predicate IsLeading(gs: seq<Graph>, s: Term, p: Term, v: Term) {
    exists i :: LeadsAt(gs, s, p, v, i)
  }

  lemma {:induction false} LeadingByTriples(gs: seq<Graph>, s: Term, p: Term)
    ensures forall v :: v in LeadingObjects(gs, s, p) <==> IsLeading(gs, s, p, v)
    ensures LeadingObjects(gs, s, p) == {} <==> !HasAny(gs, s, p)
    decreases |gs|
  {
    if gs != [] {
      var n := |gs| - 1;
      LeadingByTriples(gs[..n], s, p);
      AnyInLast(gs, s, p);
      forall v
        ensures v in LeadingObjects(gs, s, p) <==> IsLeading(gs, s, p, v)
      {
        LeadingInLast(gs, s, p, v);
        ObjectsMember(gs[n], s, p, v);
      }
      if o :| Triple(s, p, o) in gs[n] {
        ObjectsMember(gs[n], s, p, o);
      }
      if o :| o in Objects(gs[n], s, p) {
        ObjectsMember(gs[n], s, p, o);
      }
    }
  }

  lemma AnyInLast(gs: seq<Graph>, s: Term, p: Term)
    requires gs != []
    ensures HasAny(gs, s, p) <==> HasAny(gs[..|gs| - 1], s, p) || HasIn(gs[|gs| - 1], s, p)
  {
    var init := gs[..|gs| - 1];
    if i :| 0 <= i < |gs| && HasIn(gs[i], s, p) {
      assert i < |init| ==> init[i] == gs[i];
    }
    if i :| 0 <= i < |init| && HasIn(init[i], s, p) {
      assert init[i] == gs[i];
    }
  }

  lemma LeadingInLast(gs: seq<Graph>, s: Term, p: Term, v: Term)
    requires gs != []
    ensures var n := |gs| - 1;
            IsLeading(gs, s, p, v)
            <==> IsLeading(gs[..n], s, p, v) || (!HasAny(gs[..n], s, p) && Triple(s, p, v) in gs[n])
  {
    var n := |gs| - 1;
    var init := gs[..n];
    forall i: nat | i < n
      ensures LeadsAt(gs, s, p, v, i) <==> LeadsAt(init, s, p, v, i)
    {
      assert forall j | 0 <= j <= i :: init[j] == gs[j];
    }
    assert LeadsAt(gs, s, p, v, n) <==> Triple(s, p, v) in gs[n] && !HasAny(init, s, p) by {
      assert forall j | 0 <= j < n :: init[j] == gs[j];
    }
  }

  lemma {:induction false} AnyByTriples(gs: seq<Graph>, s: Term, p: Term)
    ensures AnyObjects(gs, s, p) == {} <==> !HasAny(gs, s, p)
  {
    LeadingAreObjects(gs, s, p);
    LeadingByTriples(gs, s, p);
  }

  // ----- what a node is decoded as

  /** The node has a value of the SHACL predicate with this name. */
  ghost predicate Carries(gs: seq<Graph>, b: Term, name: string) {
    HasAny(gs, b, ShaclName(name))
  }

  /** `d` is an answer for the leading value of the SHACL predicate with this name. */
  ghost predicate OperandAnswer(gs: seq<Graph>, b: Term, name: string, seen: set<Term>, d: Descriptor) {
    exists v :: IsLeading(gs, b, ShaclName(name), v) && Describes(gs, v, seen + {b}, d)
  }

  ghost predicate OperatorAnswer(gs: seq<Graph>, b: Term, name: string, seen: set<Term>, op: Operator, d: Descriptor) {
    d.OperatorKind? && d.operator == op && OperandAnswer(gs, b, name, seen, d.path)
  }

  lemma CarriesByText(gs: seq<Graph>, b: Term, op: Operator, name: string)
    requires OperatorPredicate(op) == ShaclName(name)
    ensures Operated(gs, b, op) <==> Carries(gs, b, name)
    ensures forall v :: v in LeadingObjects(gs, b, OperatorPredicate(op)) <==> IsLeading(gs, b, ShaclName(name), v)
  {
    AnyByTriples(gs, b, OperatorPredicate(op));
    LeadingByTriples(gs, b, OperatorPredicate(op));
  }

  lemma OperatorByText(gs: seq<Graph>, b: Term, seen: set<Term>, op: Operator, name: string, d: Descriptor)
    requires b.BNode? && b !in seen && FirstOperator(gs, b) == Some(op) && OperatorPredicate(op) == ShaclName(name)
    ensures Describes(gs, b, seen, d) <==> OperatorAnswer(gs, b, name, seen, op, d)
  {
    CarriesByText(gs, b, op, name);
    CarrierCase(gs, b, seen, d);
  }

  /** A blank node on the way is decoded by the first of these that it carries: inversePath,
      zeroOrMorePath, oneOrMorePath, zeroOrOnePath, alternativePath, a list; and as a complex path if
      it carries none. */
  lemma DecodedByText(gs: seq<Graph>, b: Term, seen: set<Term>, d: Descriptor)
    requires b.BNode? && b !in seen
    ensures Describes(gs, b, seen, d)
       <==> if Carries(gs, b, "inversePath") then OperatorAnswer(gs, b, "inversePath", seen, Inverse, d)
            else if Carries(gs, b, "zeroOrMorePath") then OperatorAnswer(gs, b, "zeroOrMorePath", seen, ZeroOrMore, d)
            else if Carries(gs, b, "oneOrMorePath") then OperatorAnswer(gs, b, "oneOrMorePath", seen, OneOrMore, d)
            else if Carries(gs, b, "zeroOrOnePath") then OperatorAnswer(gs, b, "zeroOrOnePath", seen, ZeroOrOne, d)
            else if Carries(gs, b, "alternativePath") then
              d.AlternativeKind? && OperandAnswer(gs, b, "alternativePath", seen, d.paths)
            else if HasAny(gs, b, RdfName("first")) then DescribesList(gs, b, seen + {b}, {}, d)
            else d == ComplexKind
  {
    PathTexts();
    RdfTexts();
    CarriesByText(gs, b, Inverse, "inversePath");
    CarriesByText(gs, b, ZeroOrMore, "zeroOrMorePath");
    CarriesByText(gs, b, OneOrMore, "oneOrMorePath");
    CarriesByText(gs, b, ZeroOrOne, "zeroOrOnePath");
    if FirstOperator(gs, b) == Some(Inverse) {
      OperatorByText(gs, b, seen, Inverse, "inversePath", d);
    } else if FirstOperator(gs, b) == Some(ZeroOrMore) {
      OperatorByText(gs, b, seen, ZeroOrMore, "zeroOrMorePath", d);
    } else if FirstOperator(gs, b) == Some(OneOrMore) {
      OperatorByText(gs, b, seen, OneOrMore, "oneOrMorePath", d);
    } else if FirstOperator(gs, b) == Some(ZeroOrOne) {
      OperatorByText(gs, b, seen, ZeroOrOne, "zeroOrOnePath", d);
    } else {
      WithoutOperator(gs, b, seen, d);
    }
  }

  lemma WithoutOperator(gs: seq<Graph>, b: Term, seen: set<Term>, d: Descriptor)
    requires b.BNode? && b !in seen && FirstOperator(gs, b) == None
    ensures Describes(gs, b, seen, d)
       <==> if Carries(gs, b, "alternativePath") then
              d.AlternativeKind? && OperandAnswer(gs, b, "alternativePath", seen, d.paths)
            else if HasAny(gs, b, RdfName("first")) then DescribesList(gs, b, seen + {b}, {}, d)
            else d == ComplexKind
  {
    PathTexts();
    RdfTexts();
    AnyByTriples(gs, b, SH_ALTERNATIVE_PATH);
    LeadingByTriples(gs, b, SH_ALTERNATIVE_PATH);
    AnyByTriples(gs, b, RDF_FIRST);
    if Carries(gs, b, "alternativePath") {
      CarrierCase(gs, b, seen, d);
    } else if HasAny(gs, b, RdfName("first")) {
      ListCase(gs, b, seen, d);
    }
  }
}
