/** SHACL property paths in RDF and their descriptors: `_normalize_result_path` of the
    independent SHACL lane (paths as in section 2.3.1 of SHACL). */
module ResultPath {
  import opened Wrappers
  import opened Rdf
  import opened Enumeration

  const SH_ALTERNATIVE_PATH := IRI(SH_NS + "alternativePath")

  datatype Operator = Inverse | ZeroOrMore | OneOrMore | ZeroOrOne

  const OPERATORS: seq<Operator> := [Inverse, ZeroOrMore, OneOrMore, ZeroOrOne]

  function OperatorPredicate(op: Operator): Term {
    match op
    case Inverse => IRI(SH_NS + "inversePath")
    case ZeroOrMore => IRI(SH_NS + "zeroOrMorePath")
    case OneOrMore => IRI(SH_NS + "oneOrMorePath")
    case ZeroOrOne => IRI(SH_NS + "zeroOrOnePath")
  }

  /** The predicates of path constructs other than lists. */
  const PATH_OPERATORS := {
    OperatorPredicate(Inverse), OperatorPredicate(ZeroOrMore), OperatorPredicate(OneOrMore),
    OperatorPredicate(ZeroOrOne), SH_ALTERNATIVE_PATH }

  /** The descriptor written for a path term. */
  datatype Descriptor =
    | IriKind(value: string)
    | LiteralKind
    | CycleKind
    | ComplexKind
    | OperatorKind(operator: Operator, path: Descriptor)
    | AlternativeKind(paths: Descriptor)
    | SequenceKind(items: seq<Descriptor>)

  // ----- objects in several graphs

  ghost function AnyObjects(gs: seq<Graph>, s: Term, p: Term): set<Term>
    decreases |gs|
  {
    if gs == [] then {} else AnyObjects(gs[..|gs| - 1], s, p) + Objects(gs[|gs| - 1], s, p)
  }

  /** A triple counts once for every graph that holds it. */
  ghost function CountObjects(gs: seq<Graph>, s: Term, p: Term): nat
    decreases |gs|
  {
    if gs == [] then 0 else CountObjects(gs[..|gs| - 1], s, p) + |Objects(gs[|gs| - 1], s, p)|
  }

  /** The objects in the first graph that has any: the first value in the source's list is one of
      them, in no particular order. */
  ghost function LeadingObjects(gs: seq<Graph>, s: Term, p: Term): set<Term>
    decreases |gs|
  {
    if gs == [] then {}
    else
      var earlier := LeadingObjects(gs[..|gs| - 1], s, p);
      if earlier != {} then earlier else Objects(gs[|gs| - 1], s, p)
  }

  lemma {:induction false} LeadingAreObjects(gs: seq<Graph>, s: Term, p: Term)
    ensures LeadingObjects(gs, s, p) <= AnyObjects(gs, s, p)
    ensures LeadingObjects(gs, s, p) == {} <==> AnyObjects(gs, s, p) == {}
    decreases |gs|
  {
    if gs != [] {
      LeadingAreObjects(gs[..|gs| - 1], s, p);
    }
  }

  /** `v` is the one object, in one graph. */
  ghost predicate Only(gs: seq<Graph>, s: Term, p: Term, v: Term) {
    CountObjects(gs, s, p) == 1 && v in AnyObjects(gs, s, p)
  }

  method ObjectsFromGraphs(gs: seq<Graph>, s: Term, p: Term) returns (values: seq<Term>)
    ensures Elements(values) == AnyObjects(gs, s, p)
    ensures |values| == CountObjects(gs, s, p)
    ensures values != [] ==> values[0] in LeadingObjects(gs, s, p)
  {
    values := [];
    for i := 0 to |gs|
      invariant Elements(values) == AnyObjects(gs[..i], s, p)
      invariant |values| == CountObjects(gs[..i], s, p)
      invariant values == [] ==> LeadingObjects(gs[..i], s, p) == {}
      invariant values != [] ==> values[0] in LeadingObjects(gs[..i], s, p)
    {
      assert gs[..i + 1][..i] == gs[..i];
      var found := Enumerate(Objects(gs[i], s, p));
      AppendElements(values, found);
      assert found != [] ==> found[0] in Elements(found);
      assert found == [] ==> Elements(found) == {};
      values := values + found;
    }
    assert gs[..|gs|] == gs;
  }

  // ----- what the decoder may answer on any graphs

  ghost predicate Operated(gs: seq<Graph>, term: Term, op: Operator) {
    AnyObjects(gs, term, OperatorPredicate(op)) != {}
  }

  /** The first operator of the decoder's order that the term carries. */
  ghost function FirstOperator(gs: seq<Graph>, term: Term): Option<Operator> {
    if Operated(gs, term, Inverse) then Some(Inverse)
    else if Operated(gs, term, ZeroOrMore) then Some(ZeroOrMore)
    else if Operated(gs, term, OneOrMore) then Some(OneOrMore)
    else if Operated(gs, term, ZeroOrOne) then Some(ZeroOrOne)
    else None
  }

  ghost function Sources(gs: seq<Graph>): set<Term>
    decreases |gs|
  {
    if gs == [] then {} else Sources(gs[..|gs| - 1]) + set t | t in gs[|gs| - 1] :: t.s
  }

  lemma {:induction false} ObjectsHaveSource(gs: seq<Graph>, s: Term, p: Term)
    ensures AnyObjects(gs, s, p) != {} ==> s in Sources(gs)
    ensures CountObjects(gs, s, p) > 0 <==> AnyObjects(gs, s, p) != {}
    decreases |gs|
  {
    if gs != [] {
      ObjectsHaveSource(gs[..|gs| - 1], s, p);
      var last := gs[|gs| - 1];
      if o :| o in Objects(last, s, p) {
        ObjectsMember(last, s, p, o);
        assert Triple(s, p, o).s in Sources(gs);
      }
    }
  }

  /** `d` is an answer for `term` below the path nodes `seen`. Only the choice among several
      objects of one operator in one graph is left open. */
  ghost predicate Describes(gs: seq<Graph>, term: Term, seen: set<Term>, d: Descriptor)
    decreases Sources(gs) - seen, 0
  {
    match term
    case IRI(value) => d == IriKind(value)
    case Literal(_, _, _, _) => d == LiteralKind
    case BNode(_) =>
      if term in seen then d == CycleKind
      else if FirstOperator(gs, term).Some? then
        var op := FirstOperator(gs, term).value;
        ObjectsHaveSource(gs, term, OperatorPredicate(op));
        d.OperatorKind? && d.operator == op
        && exists v :: v in LeadingObjects(gs, term, OperatorPredicate(op)) && Describes(gs, v, seen + {term}, d.path)
      else if AnyObjects(gs, term, SH_ALTERNATIVE_PATH) != {} then
        ObjectsHaveSource(gs, term, SH_ALTERNATIVE_PATH);
        d.AlternativeKind?
        && exists v :: v in LeadingObjects(gs, term, SH_ALTERNATIVE_PATH) && Describes(gs, v, seen + {term}, d.paths)
      else if AnyObjects(gs, term, RDF_FIRST) != {} then
        ObjectsHaveSource(gs, term, RDF_FIRST);
        DescribesList(gs, term, seen + {term}, {}, d)
      else d == ComplexKind
  }

  /** `d` is an answer for the rest of a list from `cursor`. */
  ghost predicate DescribesList(gs: seq<Graph>, cursor: Term, above: set<Term>, listSeen: set<Term>, d: Descriptor)
    decreases Sources(gs) - above, 1, Sources(gs) - listSeen
  {
    if cursor == RDF_NIL then d == SequenceKind([])
    else if cursor in listSeen then d == CycleKind
    else if CountObjects(gs, cursor, RDF_FIRST) != 1 || CountObjects(gs, cursor, RDF_REST) != 1 then d == ComplexKind
    else
      ObjectsHaveSource(gs, cursor, RDF_FIRST);
      assert Sources(gs) - (above + listSeen + {cursor}) <= Sources(gs) - above;
      exists v, rest :: Only(gs, cursor, RDF_FIRST, v) && Only(gs, cursor, RDF_REST, rest)
        && (if d.SequenceKind? then
              && d.items != []
              && Describes(gs, v, above + listSeen + {cursor}, d.items[0])
              && DescribesList(gs, rest, above, listSeen + {cursor}, SequenceKind(d.items[1..]))
            else DescribesList(gs, rest, above, listSeen + {cursor}, d))
  }

  /** One of the objects has the answer. */
  ghost predicate AnswerAmong(gs: seq<Graph>, values: set<Term>, seen: set<Term>, d: Descriptor) {
    exists v :: v in values && Describes(gs, v, seen, d)
  }

  lemma ListCase(gs: seq<Graph>, term: Term, seen: set<Term>, d: Descriptor)
    requires term.BNode? && term !in seen && FirstOperator(gs, term) == None
    requires AnyObjects(gs, term, SH_ALTERNATIVE_PATH) == {} && AnyObjects(gs, term, RDF_FIRST) != {}
    ensures Describes(gs, term, seen, d) <==> DescribesList(gs, term, seen + {term}, {}, d)
  {
  }

  /** Put decoded items in front of the answer for the rest of the list. */
  function Prepend(items: seq<Descriptor>, tail: Descriptor): Descriptor {
    if tail.SequenceKind? then SequenceKind(items + tail.items) else tail
  }

  lemma StepSequence(gs: seq<Graph>, cursor: Term, above: set<Term>, listSeen: set<Term>, v: Term, rest: Term,
        all: seq<Descriptor>)
    requires cursor != RDF_NIL && cursor !in listSeen && all != []
    requires Only(gs, cursor, RDF_FIRST, v) && Only(gs, cursor, RDF_REST, rest)
    requires Describes(gs, v, above + listSeen + {cursor}, all[0])
    requires DescribesList(gs, rest, above, listSeen + {cursor}, SequenceKind(all[1..]))
    ensures DescribesList(gs, cursor, above, listSeen, SequenceKind(all))
  {
  }

  lemma StepFailure(gs: seq<Graph>, cursor: Term, above: set<Term>, listSeen: set<Term>, v: Term, rest: Term,
        d: Descriptor)
    requires cursor != RDF_NIL && cursor !in listSeen && !d.SequenceKind?
    requires Only(gs, cursor, RDF_FIRST, v) && Only(gs, cursor, RDF_REST, rest)
    requires DescribesList(gs, rest, above, listSeen + {cursor}, d)
    ensures DescribesList(gs, cursor, above, listSeen, d)
  {
  }

  lemma StepList(gs: seq<Graph>, cursor: Term, above: set<Term>, listSeen: set<Term>, v: Term, rest: Term,
        item: Descriptor, tail: Descriptor)
    requires cursor != RDF_NIL && cursor !in listSeen
    requires Only(gs, cursor, RDF_FIRST, v) && Only(gs, cursor, RDF_REST, rest)
    requires Describes(gs, v, above + listSeen + {cursor}, item)
    requires DescribesList(gs, rest, above, listSeen + {cursor}, tail)
    ensures DescribesList(gs, cursor, above, listSeen, Prepend([item], tail))
  {
    if tail.SequenceKind? {
      var all := [item] + tail.items;
      assert all[0] == item && SequenceKind(all[1..]) == tail;
      StepSequence(gs, cursor, above, listSeen, v, rest, all);
    } else {
      StepFailure(gs, cursor, above, listSeen, v, rest, tail);
    }
  }

  method NormalizeResultPath(term: Term, gs: seq<Graph>, seen: set<Term>) returns (d: Descriptor)
    ensures Describes(gs, term, seen, d)
    decreases Sources(gs) - seen, 1
  {
    if term.IRI? {
      return IriKind(term.value);
    }
    if !term.BNode? {
      return LiteralKind;
    }
    if term in seen {
      return CycleKind;
    }
    var nextSeen := seen + {term};
    for i := 0 to |OPERATORS|
      invariant forall j :: 0 <= j < i ==> !Operated(gs, term, OPERATORS[j])
    {
      var values := ObjectsFromGraphs(gs, term, OperatorPredicate(OPERATORS[i]));
      if values != [] {
        assert values[0] in Elements(values);
        ObjectsHaveSource(gs, term, OperatorPredicate(OPERATORS[i]));
        FirstOf(gs, term, i);
        var inner := NormalizeResultPath(values[0], gs, nextSeen);
        return OperatorKind(OPERATORS[i], inner);
      }
      assert !Operated(gs, term, OPERATORS[i]);
    }
    NoneOf(gs, term);
    var alternatives := ObjectsFromGraphs(gs, term, SH_ALTERNATIVE_PATH);
    if alternatives != [] {
      assert alternatives[0] in Elements(alternatives);
      ObjectsHaveSource(gs, term, SH_ALTERNATIVE_PATH);
      var inner := NormalizeResultPath(alternatives[0], gs, nextSeen);
      return AlternativeKind(inner);
    }
    assert AnyObjects(gs, term, SH_ALTERNATIVE_PATH) == {};
    var first := ObjectsFromGraphs(gs, term, RDF_FIRST);
    if first != [] {
      assert first[0] in Elements(first);
      ObjectsHaveSource(gs, term, RDF_FIRST);
      d := NormalizeList(term, gs, nextSeen);
      return;
    }
    return ComplexKind;
  }

  lemma FirstOf(gs: seq<Graph>, term: Term, i: nat)
    requires i < |OPERATORS| && Operated(gs, term, OPERATORS[i])
    requires forall j :: 0 <= j < i ==> !Operated(gs, term, OPERATORS[j])
    ensures FirstOperator(gs, term) == Some(OPERATORS[i])
  {
    assert OPERATORS[0] == Inverse && OPERATORS[1] == ZeroOrMore && OPERATORS[2] == OneOrMore
      && OPERATORS[3] == ZeroOrOne;
  }

  lemma NoneOf(gs: seq<Graph>, term: Term)
    requires forall j :: 0 <= j < |OPERATORS| ==> !Operated(gs, term, OPERATORS[j])
    ensures FirstOperator(gs, term) == None
  {
    assert OPERATORS[0] == Inverse && OPERATORS[1] == ZeroOrMore && OPERATORS[2] == OneOrMore
      && OPERATORS[3] == ZeroOrOne;
  }

  /** Whatever answers the rest of the list, with the items so far it answers the list. */
  ghost predicate Continues(gs: seq<Graph>, head: Term, above: set<Term>, cursor: Term, listSeen: set<Term>,
        items: seq<Descriptor>)
  {
    forall tail | DescribesList(gs, cursor, above, listSeen, tail) ::
      DescribesList(gs, head, above, {}, Prepend(items, tail))
  }

  lemma ContinueStep(gs: seq<Graph>, head: Term, above: set<Term>, cursor: Term, listSeen: set<Term>,
        items: seq<Descriptor>,
        v: Term, rest: Term, item: Descriptor)
    requires Continues(gs, head, above, cursor, listSeen, items)
    requires cursor != RDF_NIL && cursor !in listSeen
    requires Only(gs, cursor, RDF_FIRST, v) && Only(gs, cursor, RDF_REST, rest)
    requires Describes(gs, v, above + listSeen + {cursor}, item)
    ensures Continues(gs, head, above, rest, listSeen + {cursor}, items + [item])
  {
    forall tail | DescribesList(gs, rest, above, listSeen + {cursor}, tail)
      ensures DescribesList(gs, head, above, {}, Prepend(items + [item], tail))
    {
      StepList(gs, cursor, above, listSeen, v, rest, item, tail);
      PrependTwice(items, item, tail);
    }
  }

  lemma PrependTwice(items: seq<Descriptor>, item: Descriptor, tail: Descriptor)
    ensures Prepend(items, Prepend([item], tail)) == Prepend(items + [item], tail)
  {
  }

  lemma Answered(gs: seq<Graph>, head: Term, above: set<Term>, cursor: Term, listSeen: set<Term>,
        items: seq<Descriptor>, tail: Descriptor)
    requires Continues(gs, head, above, cursor, listSeen, items)
    requires DescribesList(gs, cursor, above, listSeen, tail)
    ensures DescribesList(gs, head, above, {}, Prepend(items, tail))
  {
  }

  /** The cursor loop over an RDF list of paths. */
  method NormalizeList(head: Term, gs: seq<Graph>, above: set<Term>) returns (d: Descriptor)
    ensures DescribesList(gs, head, above, {}, d)
    decreases Sources(gs) - above, 2
  {
    var items: seq<Descriptor> := [];
    var cursor := head;
    var listSeen: set<Term> := {};
    assert Continues(gs, head, above, cursor, listSeen, items) by {
      assert forall tail: Descriptor :: Prepend([], tail) == tail;
    }
    while cursor != RDF_NIL
      invariant Continues(gs, head, above, cursor, listSeen, items)
      decreases Sources(gs) - listSeen
    {
      if cursor in listSeen {
        Answered(gs, head, above, cursor, listSeen, items, CycleKind);
        return CycleKind;
      }
      ghost var before := listSeen;
      listSeen := listSeen + {cursor};
      var values := ObjectsFromGraphs(gs, cursor, RDF_FIRST);
      var rest := ObjectsFromGraphs(gs, cursor, RDF_REST);
      if |values| != 1 || |rest| != 1 {
        Answered(gs, head, above, cursor, before, items, ComplexKind);
        return ComplexKind;
      }
      assert values[0] in Elements(values) && rest[0] in Elements(rest);
      ObjectsHaveSource(gs, cursor, RDF_FIRST);
      assert above + listSeen == above + before + {cursor};
      assert Sources(gs) - (above + listSeen) <= Sources(gs) - above;
      var item := NormalizeResultPath(values[0], gs, above + listSeen);
      ContinueStep(gs, head, above, cursor, before, items, values[0], rest[0], item);
      items := items + [item];
      cursor := rest[0];
    }
    Answered(gs, head, above, cursor, listSeen, items, SequenceKind([]));
    assert Prepend(items, SequenceKind([])) == SequenceKind(items) by {
      assert items + [] == items;
    }
    return SequenceKind(items);
  }
}
