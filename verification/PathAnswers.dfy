/** When the path decoder has one answer: the exact condition on graphs of any shape. */
module PathAnswers {
  import opened Wrappers
  import opened Rdf
  import opened ResultPath
  import opened PathTree

  // ----- what a node carries

  ghost predicate CarriesAlternative(gs: seq<Graph>, term: Term) {
    FirstOperator(gs, term) == None && AnyObjects(gs, term, SH_ALTERNATIVE_PATH) != {}
  }

  /** The term carries a list and no other construct. */
  ghost predicate CarriesList(gs: seq<Graph>, term: Term) {
    FirstOperator(gs, term) == None
    && AnyObjects(gs, term, SH_ALTERNATIVE_PATH) == {} && AnyObjects(gs, term, RDF_FIRST) != {}
  }

  ghost predicate CarriesNothing(gs: seq<Graph>, term: Term) {
    FirstOperator(gs, term) == None
    && AnyObjects(gs, term, SH_ALTERNATIVE_PATH) == {} && AnyObjects(gs, term, RDF_FIRST) == {}
  }

  /** What an answer for a list says about its first item and about the rest. */
  ghost predicate StepAnswer(gs: seq<Graph>, cursor: Term, above: set<Term>, listSeen: set<Term>, v: Term, rest: Term,
        d: Descriptor)
  {
    if d.SequenceKind? then
      && d.items != []
      && Describes(gs, v, above + listSeen + {cursor}, d.items[0])
      && DescribesList(gs, rest, above, listSeen + {cursor}, SequenceKind(d.items[1..]))
    else DescribesList(gs, rest, above, listSeen + {cursor}, d)
  }

  lemma StepCase(gs: seq<Graph>, cursor: Term, above: set<Term>, listSeen: set<Term>, v: Term, rest: Term,
        d: Descriptor)
    requires cursor != RDF_NIL && cursor !in listSeen
    requires Only(gs, cursor, RDF_FIRST, v) && Only(gs, cursor, RDF_REST, rest)
    ensures DescribesList(gs, cursor, above, listSeen, d) <==> StepAnswer(gs, cursor, above, listSeen, v, rest, d)
  {
    if DescribesList(gs, cursor, above, listSeen, d) {
      AnswerParts(gs, cursor, above, listSeen, d, v, rest);
    } else if d.SequenceKind? && d.items != [] {
      if StepAnswer(gs, cursor, above, listSeen, v, rest, d) {
        StepSequence(gs, cursor, above, listSeen, v, rest, d.items);
      }
    } else if !d.SequenceKind? && StepAnswer(gs, cursor, above, listSeen, v, rest, d) {
      StepFailure(gs, cursor, above, listSeen, v, rest, d);
    }
  }

  lemma OneObject(gs: seq<Graph>, s: Term, p: Term) returns (v: Term)
    requires CountObjects(gs, s, p) == 1
    ensures Only(gs, s, p, v)
  {
    ObjectsHaveSource(gs, s, p);
    v :| v in AnyObjects(gs, s, p);
  }

  /** The list loop ends here. */
  ghost predicate Stops(gs: seq<Graph>, cursor: Term, listSeen: set<Term>) {
    cursor == RDF_NIL || cursor in listSeen
    || CountObjects(gs, cursor, RDF_FIRST) != 1 || CountObjects(gs, cursor, RDF_REST) != 1
  }

  /** The node carries an operator or an alternative, decoded from one of its operands. */
  ghost predicate IsCarrier(gs: seq<Graph>, term: Term) {
    FirstOperator(gs, term).Some? || CarriesAlternative(gs, term)
  }

  ghost function CarrierPredicate(gs: seq<Graph>, term: Term): Term {
    if FirstOperator(gs, term).Some? then OperatorPredicate(FirstOperator(gs, term).value) else SH_ALTERNATIVE_PATH
  }

  /** The operands that the decoder may take: those in the first graph that has any. */
  ghost function Operands(gs: seq<Graph>, term: Term): set<Term> {
    LeadingObjects(gs, term, CarrierPredicate(gs, term))
  }

  ghost function Wrap(gs: seq<Graph>, term: Term, inner: Descriptor): Descriptor {
    if FirstOperator(gs, term).Some? then OperatorKind(FirstOperator(gs, term).value, inner) else AlternativeKind(inner)
  }

  lemma CarrierIsSource(gs: seq<Graph>, term: Term)
    requires IsCarrier(gs, term)
    ensures Operands(gs, term) != {} && term in Sources(gs)
  {
    ObjectsHaveSource(gs, term, CarrierPredicate(gs, term));
    LeadingAreObjects(gs, term, CarrierPredicate(gs, term));
  }

  lemma CarrierCase(gs: seq<Graph>, term: Term, seen: set<Term>, d: Descriptor)
    requires term.BNode? && term !in seen && IsCarrier(gs, term)
    ensures Describes(gs, term, seen, d)
       <==> exists inner :: d == Wrap(gs, term, inner) && AnswerAmong(gs, Operands(gs, term), seen + {term}, inner)
  {
    if FirstOperator(gs, term).Some? {
      var op := FirstOperator(gs, term).value;
      assert d.OperatorKind? && d.operator == op ==> d == Wrap(gs, term, d.path);
    } else {
      assert d.AlternativeKind? ==> d == Wrap(gs, term, d.paths);
    }
  }

  // ----- one answer of the decoder

  ghost function OneOf(terms: set<Term>): (v: Term)
    requires terms != {}
    ensures v in terms
  {
    var v :| v in terms;
    v
  }

  /** An answer: of several operands, any fixed one is decoded. */
  ghost function Answer(gs: seq<Graph>, term: Term, seen: set<Term>): Descriptor
    decreases Sources(gs) - seen, 0
  {
    if term.IRI? then IriKind(term.value)
    else if term.Literal? then LiteralKind
    else if term in seen then CycleKind
    else if IsCarrier(gs, term) then
      CarrierIsSource(gs, term);
      Wrap(gs, term, Answer(gs, OneOf(Operands(gs, term)), seen + {term}))
    else if CarriesList(gs, term) then
      ObjectsHaveSource(gs, term, RDF_FIRST);
      AnswerList(gs, term, seen + {term}, {})
    else ComplexKind
  }

  ghost function AnswerList(gs: seq<Graph>, cursor: Term, above: set<Term>, listSeen: set<Term>): Descriptor
    decreases Sources(gs) - above, 1, Sources(gs) - listSeen
  {
    if cursor == RDF_NIL then SequenceKind([])
    else if cursor in listSeen then CycleKind
    else if Stops(gs, cursor, listSeen) then ComplexKind
    else
      ObjectsHaveSource(gs, cursor, RDF_FIRST);
      ObjectsHaveSource(gs, cursor, RDF_REST);
      assert Sources(gs) - (above + listSeen + {cursor}) <= Sources(gs) - above;
      Prepend([Answer(gs, ItemOf(gs, cursor), above + listSeen + {cursor})],
        AnswerList(gs, RestOf(gs, cursor), above, listSeen + {cursor}))
  }

  /** The only item and the only rest of a list cell. */
  ghost function ItemOf(gs: seq<Graph>, cursor: Term): (v: Term)
    requires CountObjects(gs, cursor, RDF_FIRST) == 1
    ensures Only(gs, cursor, RDF_FIRST, v)
  {
    ObjectsHaveSource(gs, cursor, RDF_FIRST);
    OneOf(AnyObjects(gs, cursor, RDF_FIRST))
  }

  ghost function RestOf(gs: seq<Graph>, cursor: Term): (v: Term)
    requires CountObjects(gs, cursor, RDF_REST) == 1
    ensures Only(gs, cursor, RDF_REST, v)
  {
    ObjectsHaveSource(gs, cursor, RDF_REST);
    OneOf(AnyObjects(gs, cursor, RDF_REST))
  }

  lemma {:induction false} AnswerDescribes(gs: seq<Graph>, term: Term, seen: set<Term>)
    ensures Describes(gs, term, seen, Answer(gs, term, seen))
    decreases Sources(gs) - seen, 0
  {
    if term.BNode? && term !in seen {
      if IsCarrier(gs, term) {
        CarrierIsSource(gs, term);
        AnswerDescribes(gs, OneOf(Operands(gs, term)), seen + {term});
        CarrierCase(gs, term, seen, Answer(gs, term, seen));
      } else if CarriesList(gs, term) {
        ObjectsHaveSource(gs, term, RDF_FIRST);
        AnswerListDescribes(gs, term, seen + {term}, {});
        ListCase(gs, term, seen, Answer(gs, term, seen));
      }
    }
  }

  lemma {:induction false} AnswerListDescribes(gs: seq<Graph>, cursor: Term, above: set<Term>, listSeen: set<Term>)
    ensures DescribesList(gs, cursor, above, listSeen, AnswerList(gs, cursor, above, listSeen))
    decreases Sources(gs) - above, 1, Sources(gs) - listSeen
  {
    if !Stops(gs, cursor, listSeen) {
      ObjectsHaveSource(gs, cursor, RDF_FIRST);
      assert Sources(gs) - (above + listSeen + {cursor}) <= Sources(gs) - above;
      AnswerDescribes(gs, ItemOf(gs, cursor), above + listSeen + {cursor});
      AnswerListDescribes(gs, RestOf(gs, cursor), above, listSeen + {cursor});
      StepList(gs, cursor, above, listSeen, ItemOf(gs, cursor), RestOf(gs, cursor),
        Answer(gs, ItemOf(gs, cursor), above + listSeen + {cursor}),
        AnswerList(gs, RestOf(gs, cursor), above, listSeen + {cursor}));
    }
  }

  // ----- when it is the only one

  /** Wherever the decoder has a choice among operands, they agree; what a list holds matters only
      if the list is well formed. */
  ghost predicate Unambiguous(gs: seq<Graph>, term: Term, seen: set<Term>)
    decreases Sources(gs) - seen, 0
  {
    if !term.BNode? || term in seen then true
    else if IsCarrier(gs, term) then
      CarrierIsSource(gs, term);
      forall v | v in Operands(gs, term) ::
        && Unambiguous(gs, v, seen + {term})
        && Answer(gs, v, seen + {term}) == Answer(gs, OneOf(Operands(gs, term)), seen + {term})
    else if CarriesList(gs, term) then
      ObjectsHaveSource(gs, term, RDF_FIRST);
      UnambiguousList(gs, term, seen + {term}, {})
    else true
  }

  ghost predicate UnambiguousList(gs: seq<Graph>, cursor: Term, above: set<Term>, listSeen: set<Term>)
    decreases Sources(gs) - above, 1, Sources(gs) - listSeen
  {
    if Stops(gs, cursor, listSeen) || !AnswerList(gs, cursor, above, listSeen).SequenceKind? then true
    else
      ObjectsHaveSource(gs, cursor, RDF_FIRST);
      assert Sources(gs) - (above + listSeen + {cursor}) <= Sources(gs) - above;
      && Unambiguous(gs, ItemOf(gs, cursor), above + listSeen + {cursor})
      && UnambiguousList(gs, RestOf(gs, cursor), above, listSeen + {cursor})
  }

  /** The answer of a list that is not well formed does not depend on its items. */
  lemma {:induction false} FailureIsDetermined(gs: seq<Graph>, cursor: Term, above: set<Term>, listSeen: set<Term>,
        d: Descriptor)
    requires DescribesList(gs, cursor, above, listSeen, d)
    ensures d.SequenceKind? <==> AnswerList(gs, cursor, above, listSeen).SequenceKind?
    ensures !d.SequenceKind? ==> d == AnswerList(gs, cursor, above, listSeen)
    decreases Sources(gs) - listSeen
  {
    if !Stops(gs, cursor, listSeen) {
      ObjectsHaveSource(gs, cursor, RDF_FIRST);
      StepCase(gs, cursor, above, listSeen, ItemOf(gs, cursor), RestOf(gs, cursor), d);
      var tail := if d.SequenceKind? then SequenceKind(d.items[1..]) else d;
      FailureIsDetermined(gs, RestOf(gs, cursor), above, listSeen + {cursor}, tail);
    }
  }

  lemma {:induction false} UnambiguousIsUnique(gs: seq<Graph>, term: Term, seen: set<Term>, d: Descriptor)
    requires Unambiguous(gs, term, seen) && Describes(gs, term, seen, d)
    ensures d == Answer(gs, term, seen)
    decreases Sources(gs) - seen, 0
  {
    if term.BNode? && term !in seen {
      if IsCarrier(gs, term) {
        CarrierIsSource(gs, term);
        CarrierCase(gs, term, seen, d);
        var inner :| d == Wrap(gs, term, inner) && AnswerAmong(gs, Operands(gs, term), seen + {term}, inner);
        var v :| v in Operands(gs, term) && Describes(gs, v, seen + {term}, inner);
        UnambiguousIsUnique(gs, v, seen + {term}, inner);
      } else if CarriesList(gs, term) {
        ObjectsHaveSource(gs, term, RDF_FIRST);
        ListCase(gs, term, seen, d);
        UnambiguousListIsUnique(gs, term, seen + {term}, {}, d);
      }
    }
  }

  lemma {:induction false} UnambiguousListIsUnique(gs: seq<Graph>, cursor: Term, above: set<Term>, listSeen: set<Term>,
        d: Descriptor)
    requires UnambiguousList(gs, cursor, above, listSeen) && DescribesList(gs, cursor, above, listSeen, d)
    ensures d == AnswerList(gs, cursor, above, listSeen)
    decreases Sources(gs) - above, 1, Sources(gs) - listSeen
  {
    FailureIsDetermined(gs, cursor, above, listSeen, d);
    if !Stops(gs, cursor, listSeen) && d.SequenceKind? {
      ObjectsHaveSource(gs, cursor, RDF_FIRST);
      assert Sources(gs) - (above + listSeen + {cursor}) <= Sources(gs) - above;
      StepCase(gs, cursor, above, listSeen, ItemOf(gs, cursor), RestOf(gs, cursor), d);
      UnambiguousIsUnique(gs, ItemOf(gs, cursor), above + listSeen + {cursor}, d.items[0]);
      UnambiguousListIsUnique(gs, RestOf(gs, cursor), above, listSeen + {cursor}, SequenceKind(d.items[1..]));
      assert d.items == [d.items[0]] + d.items[1..];
    }
  }

  ghost predicate HasOneAnswer(gs: seq<Graph>, term: Term, seen: set<Term>) {
    forall d | Describes(gs, term, seen, d) :: d == Answer(gs, term, seen)
  }

  ghost predicate HasOneListAnswer(gs: seq<Graph>, cursor: Term, above: set<Term>, listSeen: set<Term>) {
    forall d | DescribesList(gs, cursor, above, listSeen, d) :: d == AnswerList(gs, cursor, above, listSeen)
  }

  /** Each operand of a node with one answer has that one answer. */
  lemma OperandHasOneAnswer(gs: seq<Graph>, term: Term, seen: set<Term>, v: Term)
    requires term.BNode? && term !in seen && IsCarrier(gs, term) && HasOneAnswer(gs, term, seen)
    requires v in Operands(gs, term)
    ensures HasOneAnswer(gs, v, seen + {term})
    ensures Answer(gs, v, seen + {term}) == Answer(gs, OneOf(Operands(gs, term)), seen + {term})
  {
    AnswerDescribes(gs, v, seen + {term});
    forall inner | Describes(gs, v, seen + {term}, inner)
      ensures inner == Answer(gs, OneOf(Operands(gs, term)), seen + {term})
    {
      assert AnswerAmong(gs, Operands(gs, term), seen + {term}, inner);
      CarrierCase(gs, term, seen, Wrap(gs, term, inner));
      assert Wrap(gs, term, inner) == Answer(gs, term, seen);
    }
  }

  lemma ItemHasOneAnswer(gs: seq<Graph>, cursor: Term, above: set<Term>, listSeen: set<Term>)
    requires !Stops(gs, cursor, listSeen) && HasOneListAnswer(gs, cursor, above, listSeen)
    requires AnswerList(gs, cursor, above, listSeen).SequenceKind?
    ensures HasOneAnswer(gs, ItemOf(gs, cursor), above + listSeen + {cursor})
    ensures HasOneListAnswer(gs, RestOf(gs, cursor), above, listSeen + {cursor})
  {
    var v, rest := ItemOf(gs, cursor), RestOf(gs, cursor);
    var item := Answer(gs, v, above + listSeen + {cursor});
    var tail := AnswerList(gs, rest, above, listSeen + {cursor});
    AnswerDescribes(gs, v, above + listSeen + {cursor});
    AnswerListDescribes(gs, rest, above, listSeen + {cursor});
    forall d | Describes(gs, v, above + listSeen + {cursor}, d)
      ensures d == item
    {
      StepList(gs, cursor, above, listSeen, v, rest, d, tail);
      assert ([d] + tail.items)[0] == d && ([item] + tail.items)[0] == item;
    }
    forall d | DescribesList(gs, rest, above, listSeen + {cursor}, d)
      ensures d == tail
    {
      FailureIsDetermined(gs, rest, above, listSeen + {cursor}, d);
      StepList(gs, cursor, above, listSeen, v, rest, item, d);
      assert ([item] + d.items)[1..] == d.items && ([item] + tail.items)[1..] == tail.items;
    }
  }

  lemma HeadHasOneAnswer(gs: seq<Graph>, term: Term, seen: set<Term>)
    requires term.BNode? && term !in seen && CarriesList(gs, term) && HasOneAnswer(gs, term, seen)
    ensures HasOneListAnswer(gs, term, seen + {term}, {})
  {
    forall d | DescribesList(gs, term, seen + {term}, {}, d)
      ensures d == AnswerList(gs, term, seen + {term}, {})
    {
      ListCase(gs, term, seen, d);
      assert d == Answer(gs, term, seen);
    }
  }

  lemma {:induction false} OneAnswerIsUnambiguous(gs: seq<Graph>, term: Term, seen: set<Term>)
    requires HasOneAnswer(gs, term, seen)
    ensures Unambiguous(gs, term, seen)
    decreases Sources(gs) - seen, 0
  {
    if term.BNode? && term !in seen {
      if IsCarrier(gs, term) {
        CarrierIsSource(gs, term);
        forall v | v in Operands(gs, term)
          ensures Unambiguous(gs, v, seen + {term})
          ensures Answer(gs, v, seen + {term}) == Answer(gs, OneOf(Operands(gs, term)), seen + {term})
        {
          OperandHasOneAnswer(gs, term, seen, v);
          OneAnswerIsUnambiguous(gs, v, seen + {term});
        }
      } else if CarriesList(gs, term) {
        ObjectsHaveSource(gs, term, RDF_FIRST);
        HeadHasOneAnswer(gs, term, seen);
        OneListAnswerIsUnambiguous(gs, term, seen + {term}, {});
      }
    }
  }

  lemma {:induction false} OneListAnswerIsUnambiguous(gs: seq<Graph>, cursor: Term, above: set<Term>,
        listSeen: set<Term>)
    requires HasOneListAnswer(gs, cursor, above, listSeen)
    ensures UnambiguousList(gs, cursor, above, listSeen)
    decreases Sources(gs) - above, 1, Sources(gs) - listSeen
  {
    if !Stops(gs, cursor, listSeen) && AnswerList(gs, cursor, above, listSeen).SequenceKind? {
      ObjectsHaveSource(gs, cursor, RDF_FIRST);
      assert Sources(gs) - (above + listSeen + {cursor}) <= Sources(gs) - above;
      ItemHasOneAnswer(gs, cursor, above, listSeen);
      OneAnswerIsUnambiguous(gs, ItemOf(gs, cursor), above + listSeen + {cursor});
      OneListAnswerIsUnambiguous(gs, RestOf(gs, cursor), above, listSeen + {cursor});
    }
  }

  /** Any two answers for the term are the same. */
  ghost predicate AnswersAgree(gs: seq<Graph>, term: Term, seen: set<Term>) {
    forall d, d' | Describes(gs, term, seen, d) && Describes(gs, term, seen, d') :: d == d'
  }

  lemma AgreeingIsOne(gs: seq<Graph>, term: Term, seen: set<Term>)
    ensures AnswersAgree(gs, term, seen) <==> HasOneAnswer(gs, term, seen)
  {
    AnswerDescribes(gs, term, seen);
  }

  lemma UnambiguousHasOne(gs: seq<Graph>, term: Term, seen: set<Term>)
    requires Unambiguous(gs, term, seen)
    ensures HasOneAnswer(gs, term, seen)
  {
    forall d | Describes(gs, term, seen, d)
      ensures d == Answer(gs, term, seen)
    {
      UnambiguousIsUnique(gs, term, seen, d);
    }
  }

  /** On any graphs, cyclic or malformed: the decoder has one answer, whatever order the graphs
      list their triples in, exactly if the operands agree wherever it has a choice. */
  lemma OneAnswerExactly(gs: seq<Graph>, term: Term, seen: set<Term>)
    ensures Unambiguous(gs, term, seen) <==> AnswersAgree(gs, term, seen)
  {
    AgreeingIsOne(gs, term, seen);
    if Unambiguous(gs, term, seen) {
      UnambiguousHasOne(gs, term, seen);
    }
    if AnswersAgree(gs, term, seen) {
      OneAnswerIsUnambiguous(gs, term, seen);
    }
  }

  /** In the first graph that has any, a node has one operand for each predicate. */
  ghost predicate LeadingIsSingle(gs: seq<Graph>) {
    forall s, p | p in PATH_OPERATORS :: |LeadingObjects(gs, s, p)| <= 1
  }

  lemma SingleMember(gs: seq<Graph>, term: Term, v: Term)
    requires LeadingIsSingle(gs) && v in Operands(gs, term)
    ensures v == OneOf(Operands(gs, term))
  {
    var others := Operands(gs, term) - {v};
    assert Operands(gs, term) == others + {v};
    assert |Operands(gs, term)| == |others| + 1;
    assert others == {};
  }

  /** The graphs are read in their order, so what a later graph adds to a node that an earlier one
      decides makes no difference: one operand in the leading graph is enough. */
  lemma {:induction false} SingleIsUnambiguous(gs: seq<Graph>, term: Term, seen: set<Term>)
    requires LeadingIsSingle(gs)
    ensures Unambiguous(gs, term, seen)
    decreases Sources(gs) - seen, 0
  {
    if term.BNode? && term !in seen {
      if IsCarrier(gs, term) {
        CarrierIsSource(gs, term);
        forall v | v in Operands(gs, term)
          ensures v == OneOf(Operands(gs, term)) && Unambiguous(gs, v, seen + {term})
        {
          SingleMember(gs, term, v);
          SingleIsUnambiguous(gs, v, seen + {term});
        }
      } else if CarriesList(gs, term) {
        ObjectsHaveSource(gs, term, RDF_FIRST);
        SingleListIsUnambiguous(gs, term, seen + {term}, {});
      }
    }
  }

  lemma {:induction false} SingleListIsUnambiguous(gs: seq<Graph>, cursor: Term, above: set<Term>, listSeen: set<Term>)
    requires LeadingIsSingle(gs)
    ensures UnambiguousList(gs, cursor, above, listSeen)
    decreases Sources(gs) - above, 1, Sources(gs) - listSeen
  {
    if !Stops(gs, cursor, listSeen) {
      ObjectsHaveSource(gs, cursor, RDF_FIRST);
      assert Sources(gs) - (above + listSeen + {cursor}) <= Sources(gs) - above;
      SingleIsUnambiguous(gs, ItemOf(gs, cursor), above + listSeen + {cursor});
      SingleListIsUnambiguous(gs, RestOf(gs, cursor), above, listSeen + {cursor});
    }
  }
}
