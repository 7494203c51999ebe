/** The answers of the path decoder do not depend on the labels of blank nodes. */
module PathRelabelling {
  import opened Wrappers
  import opened Rdf
  import opened Enumeration
  import opened ResultPath
  import opened PathTree
  import opened PathAnswers
  import opened Relabelling

  lemma {:induction false} RenamedAnyObjects(r: Labels, gs: seq<Graph>, s: Term, p: Term)
    requires OneToOne(r) && !p.BNode?
    ensures AnyObjects(RenamedGraphs(r, gs), Renamed(r, s), p) == RenamedTerms(r, AnyObjects(gs, s, p))
    ensures CountObjects(RenamedGraphs(r, gs), Renamed(r, s), p) == CountObjects(gs, s, p)
    decreases |gs|
  {
    if gs != [] {
      var n := |gs| - 1;
      RenamedAnyObjects(r, gs[..n], s, p);
      RenamedObjects(r, gs[n], s, p);
      RenamedSize(r, Objects(gs[n], s, p));
      RenamedUnion(r, AnyObjects(gs[..n], s, p), Objects(gs[n], s, p));
      RenamedParts(r, gs);
    }
  }

  lemma {:induction false} RenamedLeading(r: Labels, gs: seq<Graph>, s: Term, p: Term)
    requires OneToOne(r) && !p.BNode?
    ensures LeadingObjects(RenamedGraphs(r, gs), Renamed(r, s), p) == RenamedTerms(r, LeadingObjects(gs, s, p))
    decreases |gs|
  {
    if gs != [] {
      var n := |gs| - 1;
      RenamedLeading(r, gs[..n], s, p);
      RenamedSize(r, LeadingObjects(gs[..n], s, p));
      RenamedObjects(r, gs[n], s, p);
      RenamedParts(r, gs);
    }
  }

  lemma RenamedParts(r: Labels, gs: seq<Graph>)
    requires gs != []
    ensures |RenamedGraphs(r, gs)| == |gs| && RenamedGraphs(r, gs)[|gs| - 1] == RenamedGraph(r, gs[|gs| - 1])
    ensures RenamedGraphs(r, gs)[..|gs| - 1] == RenamedGraphs(r, gs[..|gs| - 1])
  {
  }

  lemma RenamedOnly(r: Labels, gs: seq<Graph>, s: Term, p: Term, v: Term)
    requires OneToOne(r) && !p.BNode?
    ensures Only(RenamedGraphs(r, gs), Renamed(r, s), p, Renamed(r, v)) <==> Only(gs, s, p, v)
  {
    RenamedAnyObjects(r, gs, s, p);
    RenamedMember(r, AnyObjects(gs, s, p), v);
  }

  lemma RenamedOperator(r: Labels, gs: seq<Graph>, term: Term)
    requires OneToOne(r)
    ensures FirstOperator(RenamedGraphs(r, gs), Renamed(r, term)) == FirstOperator(gs, term)
  {
    forall op
      ensures Operated(RenamedGraphs(r, gs), Renamed(r, term), op) <==> Operated(gs, term, op)
    {
      RenamedEmpty(r, gs, term, OperatorPredicate(op));
    }
  }

  lemma RenamedEmpty(r: Labels, gs: seq<Graph>, s: Term, p: Term)
    requires OneToOne(r) && !p.BNode?
    ensures AnyObjects(RenamedGraphs(r, gs), Renamed(r, s), p) == {} <==> AnyObjects(gs, s, p) == {}
  {
    RenamedAnyObjects(r, gs, s, p);
    RenamedSize(r, AnyObjects(gs, s, p));
  }

  // ----- result paths

  lemma AnswerAmongRenamed(r: Labels, gs: seq<Graph>, values: set<Term>, seen: set<Term>, d: Descriptor)
    requires forall v | v in values ::
      Describes(gs, v, seen, d) <==> Describes(RenamedGraphs(r, gs), Renamed(r, v), RenamedTerms(r, seen), d)
    ensures AnswerAmong(gs, values, seen, d)
       <==> AnswerAmong(RenamedGraphs(r, gs), RenamedTerms(r, values), RenamedTerms(r, seen), d)
  {
    if v :| v in values && Describes(gs, v, seen, d) {
      assert Renamed(r, v) in RenamedTerms(r, values);
    }
  }

  /** Two terms, each in its own graphs, have the same answers if they carry the same construct
      and its parts have the same answers. */
  lemma SameByOperator(gs: seq<Graph>, term: Term, seen: set<Term>, gs': seq<Graph>, term': Term, seen': set<Term>,
        op: Operator, d: Descriptor)
    requires term.BNode? && term !in seen && FirstOperator(gs, term) == Some(op)
    requires term'.BNode? && term' !in seen' && FirstOperator(gs', term') == Some(op)
    requires d.OperatorKind? ==>
      (AnswerAmong(gs, LeadingObjects(gs, term, OperatorPredicate(op)), seen + {term}, d.path)
       <==> AnswerAmong(gs', LeadingObjects(gs', term', OperatorPredicate(op)), seen' + {term'}, d.path))
    ensures Describes(gs, term, seen, d) <==> Describes(gs', term', seen', d)
  {
  }

  lemma SameByAlternative(gs: seq<Graph>, term: Term, seen: set<Term>, gs': seq<Graph>, term': Term, seen': set<Term>,
        d: Descriptor)
    requires term.BNode? && term !in seen && CarriesAlternative(gs, term)
    requires term'.BNode? && term' !in seen' && CarriesAlternative(gs', term')
    requires d.AlternativeKind? ==>
      (AnswerAmong(gs, LeadingObjects(gs, term, SH_ALTERNATIVE_PATH), seen + {term}, d.paths)
       <==> AnswerAmong(gs', LeadingObjects(gs', term', SH_ALTERNATIVE_PATH), seen' + {term'}, d.paths))
    ensures Describes(gs, term, seen, d) <==> Describes(gs', term', seen', d)
  {
  }

  lemma SameWithoutConstruct(gs: seq<Graph>, term: Term, seen: set<Term>,
        gs': seq<Graph>, term': Term, seen': set<Term>, d: Descriptor)
    requires if term.BNode? then term'.BNode? else term' == term
    requires term in seen <==> term' in seen'
    requires !term.BNode? || term in seen || (CarriesNothing(gs, term) && CarriesNothing(gs', term'))
    ensures Describes(gs, term, seen, d) <==> Describes(gs', term', seen', d)
  {
  }

  lemma SameByList(gs: seq<Graph>, term: Term, seen: set<Term>, gs': seq<Graph>, term': Term, seen': set<Term>,
        d: Descriptor)
    requires term.BNode? && term !in seen && CarriesList(gs, term)
    requires term'.BNode? && term' !in seen' && CarriesList(gs', term')
    requires DescribesList(gs, term, seen + {term}, {}, d) <==> DescribesList(gs', term', seen' + {term'}, {}, d)
    ensures Describes(gs, term, seen, d) <==> Describes(gs', term', seen', d)
  {
    ListCase(gs, term, seen, d);
    ListCase(gs', term', seen', d);
  }

  /** Which construct a node carries stays the same. */
  lemma RenamedNode(r: Labels, gs: seq<Graph>, term: Term)
    requires OneToOne(r)
    ensures FirstOperator(RenamedGraphs(r, gs), Renamed(r, term)) == FirstOperator(gs, term)
    ensures CarriesAlternative(RenamedGraphs(r, gs), Renamed(r, term)) <==> CarriesAlternative(gs, term)
    ensures CarriesList(RenamedGraphs(r, gs), Renamed(r, term)) <==> CarriesList(gs, term)
    ensures CarriesNothing(RenamedGraphs(r, gs), Renamed(r, term)) <==> CarriesNothing(gs, term)
    ensures FirstOperator(gs, term).Some? || CarriesAlternative(gs, term) || CarriesList(gs, term)
      || CarriesNothing(gs, term)
  {
    RenamedOperator(r, gs, term);
    RenamedEmpty(r, gs, term, SH_ALTERNATIVE_PATH);
    RenamedEmpty(r, gs, term, RDF_FIRST);
  }

  /** The decoder's possible answers do not depend on the labels of blank nodes. */
  lemma {:induction false} DescribesRenamed(r: Labels, gs: seq<Graph>, term: Term, seen: set<Term>, d: Descriptor)
    requires OneToOne(r)
    ensures Describes(gs, term, seen, d)
       <==> Describes(RenamedGraphs(r, gs), Renamed(r, term), RenamedTerms(r, seen), d)
    decreases Sources(gs) - seen, 1
  {
    var gs', term', seen' := RenamedGraphs(r, gs), Renamed(r, term), RenamedTerms(r, seen);
    RenamedMember(r, seen, term);
    RenamedNode(r, gs, term);
    if !term.BNode? || term in seen || CarriesNothing(gs, term) {
      SameWithoutConstruct(gs, term, seen, gs', term', seen', d);
    } else if FirstOperator(gs, term).Some? {
      var op := FirstOperator(gs, term).value;
      if d.OperatorKind? {
        AmongRenamed(r, gs, term, OperatorPredicate(op), seen, d.path);
      }
      SameByOperator(gs, term, seen, gs', term', seen', op, d);
    } else if CarriesAlternative(gs, term) {
      if d.AlternativeKind? {
        AmongRenamed(r, gs, term, SH_ALTERNATIVE_PATH, seen, d.paths);
      }
      SameByAlternative(gs, term, seen, gs', term', seen', d);
    } else {
      ListHeadRenamed(r, gs, term, seen, d);
      SameByList(gs, term, seen, gs', term', seen', d);
    }
  }

  lemma {:induction false} ListHeadRenamed(r: Labels, gs: seq<Graph>, term: Term, seen: set<Term>, d: Descriptor)
    requires OneToOne(r) && term !in seen && CarriesList(gs, term)
    ensures DescribesList(gs, term, seen + {term}, {}, d)
       <==> DescribesList(RenamedGraphs(r, gs), Renamed(r, term), RenamedTerms(r, seen) + {Renamed(r, term)}, {}, d)
    decreases Sources(gs) - seen, 0
  {
    ObjectsHaveSource(gs, term, RDF_FIRST);
    RenamedWith(r, seen, term);
    assert RenamedTerms(r, {}) == {};
    DescribesListRenamed(r, gs, term, seen + {term}, {}, d);
  }

  lemma {:induction false} AmongRenamed(r: Labels, gs: seq<Graph>, term: Term, p: Term, seen: set<Term>, d: Descriptor)
    requires OneToOne(r) && !p.BNode? && term !in seen && AnyObjects(gs, term, p) != {}
    ensures AnswerAmong(gs, LeadingObjects(gs, term, p), seen + {term}, d)
       <==> AnswerAmong(RenamedGraphs(r, gs), LeadingObjects(RenamedGraphs(r, gs), Renamed(r, term), p),
              RenamedTerms(r, seen) + {Renamed(r, term)}, d)
    decreases Sources(gs) - seen, 0
  {
    ObjectsHaveSource(gs, term, p);
    forall v | v in LeadingObjects(gs, term, p)
      ensures Describes(gs, v, seen + {term}, d)
         <==> Describes(RenamedGraphs(r, gs), Renamed(r, v), RenamedTerms(r, seen + {term}), d)
    {
      DescribesRenamed(r, gs, v, seen + {term}, d);
    }
    AnswerAmongRenamed(r, gs, LeadingObjects(gs, term, p), seen + {term}, d);
    RenamedLeading(r, gs, term, p);
    RenamedWith(r, seen, term);
  }

  lemma {:induction false} DescribesListRenamed(r: Labels, gs: seq<Graph>, cursor: Term, above: set<Term>,
        listSeen: set<Term>, d: Descriptor)
    requires OneToOne(r)
    ensures DescribesList(gs, cursor, above, listSeen, d)
       <==> DescribesList(RenamedGraphs(r, gs), Renamed(r, cursor), RenamedTerms(r, above), RenamedTerms(r, listSeen),
         d)
    decreases Sources(gs) - above, 3, Sources(gs) - listSeen, 1
  {
    var gs', cursor' := RenamedGraphs(r, gs), Renamed(r, cursor);
    var above', listSeen' := RenamedTerms(r, above), RenamedTerms(r, listSeen);
    RenamedMember(r, listSeen, cursor);
    RenamedAnyObjects(r, gs, cursor, RDF_FIRST);
    RenamedAnyObjects(r, gs, cursor, RDF_REST);
    if Stops(gs, cursor, listSeen) {
      SameStop(gs, cursor, above, listSeen, gs', cursor', above', listSeen', d);
    } else {
      var v := OneObject(gs, cursor, RDF_FIRST);
      var rest := OneObject(gs, cursor, RDF_REST);
      RenamedOnly(r, gs, cursor, RDF_FIRST, v);
      RenamedOnly(r, gs, cursor, RDF_REST, rest);
      StepRenamed(r, gs, cursor, above, listSeen, v, rest, d);
      SameByStep(gs, cursor, above, listSeen, v, rest, gs', cursor', above', listSeen', Renamed(r, v), Renamed(r, rest),
        d);
    }
  }

  lemma SameStop(gs: seq<Graph>, cursor: Term, above: set<Term>, listSeen: set<Term>,
        gs': seq<Graph>, cursor': Term, above': set<Term>, listSeen': set<Term>, d: Descriptor)
    requires Stops(gs, cursor, listSeen)
    requires (cursor == RDF_NIL <==> cursor' == RDF_NIL) && (cursor in listSeen <==> cursor' in listSeen')
    requires CountObjects(gs, cursor, RDF_FIRST) == CountObjects(gs', cursor', RDF_FIRST)
    requires CountObjects(gs, cursor, RDF_REST) == CountObjects(gs', cursor', RDF_REST)
    ensures DescribesList(gs, cursor, above, listSeen, d) <==> DescribesList(gs', cursor', above', listSeen', d)
  {
  }

  lemma SameByStep(gs: seq<Graph>, cursor: Term, above: set<Term>, listSeen: set<Term>, v: Term, rest: Term,
        gs': seq<Graph>, cursor': Term, above': set<Term>, listSeen': set<Term>, v': Term, rest': Term, d: Descriptor)
    requires cursor != RDF_NIL && cursor !in listSeen && cursor' != RDF_NIL && cursor' !in listSeen'
    requires Only(gs, cursor, RDF_FIRST, v) && Only(gs, cursor, RDF_REST, rest)
    requires Only(gs', cursor', RDF_FIRST, v') && Only(gs', cursor', RDF_REST, rest')
    requires StepAnswer(gs, cursor, above, listSeen, v, rest, d)
        <==> StepAnswer(gs', cursor', above', listSeen', v', rest', d)
    ensures DescribesList(gs, cursor, above, listSeen, d) <==> DescribesList(gs', cursor', above', listSeen', d)
  {
    StepCase(gs, cursor, above, listSeen, v, rest, d);
    StepCase(gs', cursor', above', listSeen', v', rest', d);
  }

  lemma {:induction false} StepRenamed(r: Labels, gs: seq<Graph>, cursor: Term, above: set<Term>, listSeen: set<Term>,
        v: Term, rest: Term, d: Descriptor)
    requires OneToOne(r) && cursor !in listSeen && Only(gs, cursor, RDF_FIRST, v)
    ensures StepAnswer(gs, cursor, above, listSeen, v, rest, d)
       <==> StepAnswer(RenamedGraphs(r, gs), Renamed(r, cursor), RenamedTerms(r, above), RenamedTerms(r, listSeen),
              Renamed(r, v), Renamed(r, rest), d)
    decreases Sources(gs) - above, 3, Sources(gs) - listSeen, 0
  {
    ObjectsHaveSource(gs, cursor, RDF_FIRST);
    RenamedWith(r, listSeen, cursor);
    RenamedWith(r, above + listSeen, cursor);
    RenamedUnion(r, above, listSeen);
    if !d.SequenceKind? {
      DescribesListRenamed(r, gs, rest, above, listSeen + {cursor}, d);
    } else if d.items != [] {
      assert Sources(gs) - (above + listSeen + {cursor}) <= Sources(gs) - above;
      DescribesRenamed(r, gs, v, above + listSeen + {cursor}, d.items[0]);
      DescribesListRenamed(r, gs, rest, above, listSeen + {cursor}, SequenceKind(d.items[1..]));
    }
  }
}
