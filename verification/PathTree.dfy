/** Path trees, their RDF encoding, and the round trip through the path decoder. */
module PathTree {
  import opened Wrappers
  import opened Rdf
  import opened Enumeration
  import opened Ordering
  import opened ResultPath

  datatype Path =
    | Predicate(iri: string)
    | Repeat(operator: Operator, path: Path)
    | Alternative(paths: seq<Path>)
    | Sequence(paths: seq<Path>)

  /** Alternatives and sequences have members. */
  predicate WellFormed(tree: Path) {
    match tree
    case Predicate(_) => true
    case Repeat(_, path) => WellFormed(path)
    case Alternative(paths) => paths != [] && forall p | p in paths :: WellFormed(p)
    case Sequence(paths) => paths != [] && forall p | p in paths :: WellFormed(p)
  }

  // ----- descriptors of trees

  function Describe(tree: Path): Descriptor
    decreases tree, 0
  {
    match tree
    case Predicate(iri) => IriKind(iri)
    case Repeat(op, path) => OperatorKind(op, Describe(path))
    case Alternative(paths) => AlternativeKind(SequenceKind(DescribeAll(paths)))
    case Sequence(paths) => SequenceKind(DescribeAll(paths))
  }

  function DescribeAll(paths: seq<Path>): (ds: seq<Descriptor>)
    ensures |ds| == |paths|
    decreases paths, 1
  {
    if paths == [] then [] else [Describe(paths[0])] + DescribeAll(paths[1..])
  }

  /** Distinct trees have distinct descriptors. */
  lemma {:induction false} DescribeInjective(a: Path, b: Path)
    requires Describe(a) == Describe(b)
    ensures a == b
    decreases a, 0
  {
    match a
    case Predicate(_) =>
    case Repeat(_, path) => DescribeInjective(path, b.path);
    case Alternative(paths) => DescribeAllInjective(paths, b.paths);
    case Sequence(paths) => DescribeAllInjective(paths, b.paths);
  }

  lemma {:induction false} DescribeAllInjective(a: seq<Path>, b: seq<Path>)
    requires DescribeAll(a) == DescribeAll(b)
    ensures a == b
    decreases a, 1
  {
    if a != [] {
      assert DescribeAll(a)[0] == Describe(a[0]) && DescribeAll(b)[0] == Describe(b[0]);
      assert DescribeAll(a)[1..] == DescribeAll(a[1..]) && DescribeAll(b)[1..] == DescribeAll(b[1..]);
      DescribeInjective(a[0], b[0]);
      DescribeAllInjective(a[1..], b[1..]);
      SameHeadAndTail(a, b);
    }
  }

  // ----- well-formed encodings

  ghost predicate NoOperator(gs: seq<Graph>, term: Term) {
    FirstOperator(gs, term) == None
  }

  /** `op` is the one path predicate of the node. */
  ghost predicate OnlyOperator(gs: seq<Graph>, term: Term, op: Operator) {
    && (forall other | other != op :: !Operated(gs, term, other))
    && AnyObjects(gs, term, SH_ALTERNATIVE_PATH) == {}
    && AnyObjects(gs, term, RDF_FIRST) == {}
  }

  /** `term` is a well-formed encoding of `tree` in the graphs together: each blank node
      carries the triples of one path construct, once, and no other path triples. */
  ghost predicate Encodes(gs: seq<Graph>, term: Term, tree: Path)
    decreases tree, 0
  {
    match tree
    case Predicate(iri) => term == IRI(iri)
    case Repeat(op, path) =>
      term.BNode? && OnlyOperator(gs, term, op)
      && exists v :: Only(gs, term, OperatorPredicate(op), v) && Encodes(gs, v, path)
    case Alternative(paths) =>
      term.BNode? && NoOperator(gs, term) && AnyObjects(gs, term, RDF_FIRST) == {} && paths != []
      && exists head :: Only(gs, term, SH_ALTERNATIVE_PATH, head) && EncodesList(gs, head, paths)
    case Sequence(paths) => paths != [] && EncodesList(gs, term, paths)
  }

  ghost predicate EncodesList(gs: seq<Graph>, head: Term, paths: seq<Path>)
    decreases paths, 1
  {
    if paths == [] then head == RDF_NIL
    else
      head.BNode? && NoOperator(gs, head) && AnyObjects(gs, head, SH_ALTERNATIVE_PATH) == {}
      && exists v, rest :: Only(gs, head, RDF_FIRST, v) && Only(gs, head, RDF_REST, rest)
           && Encodes(gs, v, paths[0]) && EncodesList(gs, rest, paths[1..])
  }

  lemma {:induction false} OnlyIsUnique(gs: seq<Graph>, s: Term, p: Term, v: Term, w: Term)
    requires Only(gs, s, p, v) && w in AnyObjects(gs, s, p)
    ensures v == w
    decreases |gs|
  {
    ObjectsHaveSource(gs[..|gs| - 1], s, p);
    var here := Objects(gs[|gs| - 1], s, p);
    if here == {} {
      OnlyIsUnique(gs[..|gs| - 1], s, p, v, w);
    } else {
      var x :| x in here;
      assert |here - {x}| == |here| - 1;
      assert here == {x} + (here - {x});
    }
  }

  /** A term encodes at most one tree. */
  lemma {:induction false} EncodesUnique(gs: seq<Graph>, term: Term, a: Path, b: Path)
    requires Encodes(gs, term, a) && Encodes(gs, term, b)
    ensures a == b
    decreases a, 0
  {
    match a
    case Predicate(_) =>
    case Repeat(op, path) =>
      assert b.Repeat?;
      var v :| Only(gs, term, OperatorPredicate(op), v) && Encodes(gs, v, path);
      assert Operated(gs, term, op);
      assert b.operator == op;
      var w :| Only(gs, term, OperatorPredicate(op), w) && Encodes(gs, w, b.path);
      OnlyIsUnique(gs, term, OperatorPredicate(op), v, w);
      EncodesUnique(gs, v, path, b.path);
    case Alternative(paths) =>
      assert b.Alternative?;
      var v :| Only(gs, term, SH_ALTERNATIVE_PATH, v) && EncodesList(gs, v, paths);
      var w :| Only(gs, term, SH_ALTERNATIVE_PATH, w) && EncodesList(gs, w, b.paths);
      OnlyIsUnique(gs, term, SH_ALTERNATIVE_PATH, v, w);
      EncodesListUnique(gs, v, paths, b.paths);
    case Sequence(paths) =>
      assert b.Sequence?;
      EncodesListUnique(gs, term, paths, b.paths);
  }

  lemma ListParts(gs: seq<Graph>, head: Term, paths: seq<Path>) returns (v: Term, rest: Term)
    requires EncodesList(gs, head, paths) && paths != []
    ensures head.BNode? && NoOperator(gs, head) && AnyObjects(gs, head, SH_ALTERNATIVE_PATH) == {}
    ensures Only(gs, head, RDF_FIRST, v) && Only(gs, head, RDF_REST, rest)
    ensures Encodes(gs, v, paths[0]) && EncodesList(gs, rest, paths[1..])
  {
    v, rest :| Only(gs, head, RDF_FIRST, v) && Only(gs, head, RDF_REST, rest)
      && Encodes(gs, v, paths[0]) && EncodesList(gs, rest, paths[1..]);
  }

  lemma {:induction false} EncodesListUnique(gs: seq<Graph>, head: Term, a: seq<Path>, b: seq<Path>)
    requires EncodesList(gs, head, a) && EncodesList(gs, head, b)
    ensures a == b
    decreases a, 1
  {
    if a != [] {
      var v, rest := ListParts(gs, head, a);
      var w, rest' := ListParts(gs, head, b);
      OnlyIsUnique(gs, head, RDF_FIRST, v, w);
      OnlyIsUnique(gs, head, RDF_REST, rest, rest');
      EncodesUnique(gs, v, a[0], b[0]);
      EncodesListUnique(gs, rest, a[1..], b[1..]);
      SameHeadAndTail(a, b);
    }
  }

  // ----- decoding an encoded tree

  function Size(tree: Path): nat
    decreases tree, 0
  {
    match tree
    case Predicate(_) => 1
    case Repeat(_, path) => 1 + Size(path)
    case Alternative(paths) => 2 + SizeAll(paths)
    case Sequence(paths) => 1 + SizeAll(paths)
  }

  function SizeAll(paths: seq<Path>): nat
    decreases paths, 1
  {
    if paths == [] then 0 else 1 + Size(paths[0]) + SizeAll(paths[1..])
  }

  ghost predicate EncodesAtLeast(gs: seq<Graph>, term: Term, size: nat) {
    exists tree :: Encodes(gs, term, tree) && Size(tree) >= size
  }

  /** The blank nodes passed on the way down encode larger trees. */
  ghost predicate AllLarger(gs: seq<Graph>, nodes: set<Term>, size: nat) {
    forall n | n in nodes :: EncodesAtLeast(gs, n, size)
  }

  lemma LargerIsElsewhere(gs: seq<Graph>, term: Term, tree: Path, nodes: set<Term>)
    requires Encodes(gs, term, tree) && AllLarger(gs, nodes, Size(tree) + 1)
    ensures term !in nodes
  {
    if term in nodes {
      assert EncodesAtLeast(gs, term, Size(tree) + 1);
      var other :| Encodes(gs, term, other) && Size(other) >= Size(tree) + 1;
      EncodesUnique(gs, term, tree, other);
    }
  }

  lemma LargerDown(gs: seq<Graph>, nodes: set<Term>, term: Term, tree: Path, size: nat)
    requires AllLarger(gs, nodes, size) && Encodes(gs, term, tree) && Size(tree) >= size
    ensures AllLarger(gs, nodes + {term}, size)
  {
  }

  /** Any answer of the decoder for an encoded tree is the tree's descriptor. */
  lemma {:induction false} DecodesTree(gs: seq<Graph>, term: Term, tree: Path, seen: set<Term>, d: Descriptor)
    requires Encodes(gs, term, tree) && Describes(gs, term, seen, d)
    requires AllLarger(gs, seen, Size(tree) + 1)
    ensures d == Describe(tree)
    decreases tree, 0
  {
    LargerIsElsewhere(gs, term, tree, seen);
    LargerDown(gs, seen, term, tree, Size(tree));
    match tree
    case Predicate(_) =>
    case Repeat(op, path) =>
      var v := RepeatAnswer(gs, term, op, path, seen, d);
      DecodesTree(gs, v, path, seen + {term}, d.path);
    case Alternative(paths) =>
      var head :| Only(gs, term, SH_ALTERNATIVE_PATH, head) && EncodesList(gs, head, paths);
      var w :| w in LeadingObjects(gs, term, SH_ALTERNATIVE_PATH) && Describes(gs, w, seen + {term}, d.paths);
      LeadingAreObjects(gs, term, SH_ALTERNATIVE_PATH);
      OnlyIsUnique(gs, term, SH_ALTERNATIVE_PATH, head, w);
      DecodesSequence(gs, head, paths, seen + {term}, d.paths);
    case Sequence(paths) =>
      DecodesSequence(gs, term, paths, seen, d);
  }

  /** The operand that an answer for a repeated path describes is the encoded one. */
  lemma RepeatAnswer(gs: seq<Graph>, term: Term, op: Operator, path: Path, seen: set<Term>, d: Descriptor)
    returns (v: Term)
    requires Encodes(gs, term, Repeat(op, path)) && Describes(gs, term, seen, d) && term !in seen
    ensures Encodes(gs, v, path)
    ensures d.OperatorKind? && d.operator == op && Describes(gs, v, seen + {term}, d.path)
  {
    v :| Only(gs, term, OperatorPredicate(op), v) && Encodes(gs, v, path);
    assert Operated(gs, term, op);
    assert FirstOperator(gs, term) == Some(op);
    var w :| w in LeadingObjects(gs, term, OperatorPredicate(op)) && Describes(gs, w, seen + {term}, d.path);
    LeadingAreObjects(gs, term, OperatorPredicate(op));
    OnlyIsUnique(gs, term, OperatorPredicate(op), v, w);
  }

  lemma {:induction false} DecodesSequence(gs: seq<Graph>, head: Term, paths: seq<Path>, seen: set<Term>, d: Descriptor)
    requires paths != [] && EncodesList(gs, head, paths) && Describes(gs, head, seen, d)
    requires AllLarger(gs, seen, 2 + SizeAll(paths))
    ensures d == SequenceKind(DescribeAll(paths))
    decreases paths, 2
  {
    assert Encodes(gs, head, Sequence(paths));
    LargerIsElsewhere(gs, head, Sequence(paths), seen);
    LargerDown(gs, seen, head, Sequence(paths), 1 + SizeAll(paths));
    DecodesList(gs, head, paths, seen + {head}, {}, d);
  }

  /** What an answer for a list says about the first cell and the rest. */
  lemma AnswerParts(gs: seq<Graph>, cursor: Term, above: set<Term>, listSeen: set<Term>, d: Descriptor, v: Term,
        rest: Term)
    requires DescribesList(gs, cursor, above, listSeen, d)
    requires cursor != RDF_NIL && cursor !in listSeen
    requires Only(gs, cursor, RDF_FIRST, v) && Only(gs, cursor, RDF_REST, rest)
    ensures d.SequenceKind? ==>
      && d.items != []
      && Describes(gs, v, above + listSeen + {cursor}, d.items[0])
      && DescribesList(gs, rest, above, listSeen + {cursor}, SequenceKind(d.items[1..]))
    ensures !d.SequenceKind? ==> DescribesList(gs, rest, above, listSeen + {cursor}, d)
  {
    var w, rest' :| Only(gs, cursor, RDF_FIRST, w) && Only(gs, cursor, RDF_REST, rest')
      && (if d.SequenceKind? then
            && d.items != []
            && Describes(gs, w, above + listSeen + {cursor}, d.items[0])
            && DescribesList(gs, rest', above, listSeen + {cursor}, SequenceKind(d.items[1..]))
          else DescribesList(gs, rest', above, listSeen + {cursor}, d));
    OnlyIsUnique(gs, cursor, RDF_FIRST, v, w);
    OnlyIsUnique(gs, cursor, RDF_REST, rest, rest');
  }

  /** The blank nodes above the first item and above the rest of a list. */
  lemma LargerInList(gs: seq<Graph>, cursor: Term, paths: seq<Path>, above: set<Term>, listSeen: set<Term>)
    requires EncodesList(gs, cursor, paths) && paths != []
    requires AllLarger(gs, above, 1 + SizeAll(paths)) && AllLarger(gs, listSeen, 2 + SizeAll(paths))
    ensures cursor !in listSeen
    ensures AllLarger(gs, above + listSeen + {cursor}, Size(paths[0]) + 1)
    ensures AllLarger(gs, above, 1 + SizeAll(paths[1..]))
    ensures AllLarger(gs, listSeen + {cursor}, 2 + SizeAll(paths[1..]))
  {
    var size := 1 + SizeAll(paths);
    assert Encodes(gs, cursor, Sequence(paths));
    LargerIsElsewhere(gs, cursor, Sequence(paths), listSeen);
    LargerDown(gs, listSeen, cursor, Sequence(paths), size);
    assert AllLarger(gs, above + listSeen + {cursor}, size) by {
      assert forall n | n in above + listSeen + {cursor} :: n in above || n in listSeen + {cursor};
    }
  }

  lemma SequenceInParts(d: Descriptor, paths: seq<Path>)
    requires d.SequenceKind? && d.items != [] && paths != []
    requires d.items[0] == Describe(paths[0]) && SequenceKind(d.items[1..]) == SequenceKind(DescribeAll(paths[1..]))
    ensures d == SequenceKind(DescribeAll(paths))
  {
  }

  lemma {:induction false} DecodesList(gs: seq<Graph>, cursor: Term, paths: seq<Path>, above: set<Term>,
        listSeen: set<Term>, d: Descriptor)
    requires EncodesList(gs, cursor, paths) && DescribesList(gs, cursor, above, listSeen, d)
    requires AllLarger(gs, above, 1 + SizeAll(paths)) && AllLarger(gs, listSeen, 2 + SizeAll(paths))
    ensures d == SequenceKind(DescribeAll(paths))
    decreases paths, 1
  {
    if paths != [] {
      LargerInList(gs, cursor, paths, above, listSeen);
      var v, rest := ListParts(gs, cursor, paths);
      AnswerParts(gs, cursor, above, listSeen, d, v, rest);
      if d.SequenceKind? {
        DecodesTree(gs, v, paths[0], above + listSeen + {cursor}, d.items[0]);
        DecodesList(gs, rest, paths[1..], above, listSeen + {cursor}, SequenceKind(d.items[1..]));
        SequenceInParts(d, paths);
      } else {
        DecodesList(gs, rest, paths[1..], above, listSeen + {cursor}, d);
      }
    }
  }

  /** The round trip: whatever graphs surround it, an encoded tree is decoded to its
      descriptor and to no other. */
  lemma PathRoundTrip(gs: seq<Graph>, term: Term, tree: Path, d: Descriptor)
    requires Encodes(gs, term, tree) && Describes(gs, term, {}, d)
    ensures d == Describe(tree)
    ensures forall other :: d == Describe(other) ==> other == tree
  {
    DecodesTree(gs, term, tree, {}, d);
    forall other | d == Describe(other)
      ensures other == tree
    {
      DescribeInjective(other, tree);
    }
  }

  // ----- what an answer tells about the graphs

  /** The graphs hold triples that spell `tree` at `term`, of several operands in the first graph
      that has any. */
  ghost predicate Spells(gs: seq<Graph>, term: Term, tree: Path)
    decreases tree, 0
  {
    match tree
    case Predicate(iri) => term == IRI(iri)
    case Repeat(op, path) =>
      term.BNode? && exists v :: v in LeadingObjects(gs, term, OperatorPredicate(op)) && Spells(gs, v, path)
    case Alternative(paths) =>
      term.BNode? && paths != []
      && exists head: Term ::
           head.BNode? && head in LeadingObjects(gs, term, SH_ALTERNATIVE_PATH) && SpellsList(gs, head, paths)
    case Sequence(paths) => term.BNode? && paths != [] && SpellsList(gs, term, paths)
  }

  ghost predicate SpellsList(gs: seq<Graph>, head: Term, paths: seq<Path>)
    decreases paths, 1
  {
    if paths == [] then head == RDF_NIL
    else exists v, rest :: Only(gs, head, RDF_FIRST, v) && Only(gs, head, RDF_REST, rest)
           && Spells(gs, v, paths[0]) && SpellsList(gs, rest, paths[1..])
  }

  /** The decoder invents nothing: on any graphs, cyclic or malformed, an answer that is the
      descriptor of a tree is backed by triples that spell that tree. */
  lemma {:induction false} AnswersAreSpelled(gs: seq<Graph>, term: Term, seen: set<Term>, tree: Path)
    requires Describes(gs, term, seen, Describe(tree))
    ensures Spells(gs, term, tree)
    decreases tree, 0
  {
    match tree
    case Predicate(_) => AnswerKinds(gs, term, seen, Describe(tree));
    case Repeat(op, path) =>
      var v := OperatorAnswer(gs, term, seen, op, Describe(path));
      AnswersAreSpelled(gs, v, seen + {term}, path);
    case Alternative(paths) =>
      var head := AlternativeAnswer(gs, term, seen, SequenceKind(DescribeAll(paths)));
      SequenceAnswerIsSpelled(gs, head, seen + {term}, paths);
    case Sequence(paths) => SequenceAnswerIsSpelled(gs, term, seen, paths);
  }

  lemma {:induction false} SequenceAnswerIsSpelled(gs: seq<Graph>, head: Term, seen: set<Term>, paths: seq<Path>)
    requires Describes(gs, head, seen, SequenceKind(DescribeAll(paths)))
    ensures head.BNode? && paths != [] && SpellsList(gs, head, paths)
    decreases paths, 2
  {
    ListAnswersAreSpelled(gs, head, seen + {head}, {}, paths);
  }

  lemma {:induction false} ListAnswerKinds(gs: seq<Graph>, cursor: Term, above: set<Term>, listSeen: set<Term>,
        d: Descriptor)
    requires DescribesList(gs, cursor, above, listSeen, d)
    ensures d.SequenceKind? || d.CycleKind? || d.ComplexKind?
    decreases Sources(gs) - listSeen
  {
    if !d.SequenceKind? && cursor != RDF_NIL && cursor !in listSeen
       && CountObjects(gs, cursor, RDF_FIRST) == 1 && CountObjects(gs, cursor, RDF_REST) == 1 {
      var v, rest :| Only(gs, cursor, RDF_FIRST, v) && Only(gs, cursor, RDF_REST, rest)
        && DescribesList(gs, rest, above, listSeen + {cursor}, d);
      ObjectsHaveSource(gs, cursor, RDF_FIRST);
      ListAnswerKinds(gs, rest, above, listSeen + {cursor}, d);
    }
  }

  /** The kind of an answer tells which construct the term carries. */
  lemma AnswerKinds(gs: seq<Graph>, term: Term, seen: set<Term>, d: Descriptor)
    requires Describes(gs, term, seen, d)
    ensures d.IriKind? ==> term == IRI(d.value)
    ensures d.OperatorKind? ==> term.BNode? && term !in seen && FirstOperator(gs, term) == Some(d.operator)
    ensures d.AlternativeKind? ==> term.BNode? && term !in seen && FirstOperator(gs, term) == None
                                   && AnyObjects(gs, term, SH_ALTERNATIVE_PATH) != {}
  {
    if term.BNode? && term !in seen && FirstOperator(gs, term) == None
      && AnyObjects(gs, term, SH_ALTERNATIVE_PATH) == {} {
      if AnyObjects(gs, term, RDF_FIRST) != {} {
        ListAnswerKinds(gs, term, seen + {term}, {}, d);
      }
    }
  }

  lemma OperatorAnswer(gs: seq<Graph>, term: Term, seen: set<Term>, op: Operator, inner: Descriptor) returns (v: Term)
    requires Describes(gs, term, seen, OperatorKind(op, inner))
    ensures term.BNode? && v in LeadingObjects(gs, term, OperatorPredicate(op))
    ensures Describes(gs, v, seen + {term}, inner)
  {
    AnswerKinds(gs, term, seen, OperatorKind(op, inner));
    v :| v in LeadingObjects(gs, term, OperatorPredicate(op))
      && Describes(gs, v, seen + {term}, OperatorKind(op, inner).path);
  }

  lemma AlternativeAnswer(gs: seq<Graph>, term: Term, seen: set<Term>, inner: Descriptor) returns (v: Term)
    requires Describes(gs, term, seen, AlternativeKind(inner))
    ensures term.BNode? && v in LeadingObjects(gs, term, SH_ALTERNATIVE_PATH)
    ensures Describes(gs, v, seen + {term}, inner)
  {
    AnswerKinds(gs, term, seen, AlternativeKind(inner));
    v :| v in LeadingObjects(gs, term, SH_ALTERNATIVE_PATH)
      && Describes(gs, v, seen + {term}, AlternativeKind(inner).paths);
  }

  lemma ListAnswerParts(gs: seq<Graph>, cursor: Term, above: set<Term>, listSeen: set<Term>, paths: seq<Path>)
    returns (v: Term, rest: Term)
    requires DescribesList(gs, cursor, above, listSeen, SequenceKind(DescribeAll(paths))) && paths != []
    ensures Only(gs, cursor, RDF_FIRST, v) && Only(gs, cursor, RDF_REST, rest)
    ensures Describes(gs, v, above + listSeen + {cursor}, Describe(paths[0]))
    ensures DescribesList(gs, rest, above, listSeen + {cursor}, SequenceKind(DescribeAll(paths[1..])))
  {
    var items := DescribeAll(paths);
    v, rest :| Only(gs, cursor, RDF_FIRST, v) && Only(gs, cursor, RDF_REST, rest)
      && Describes(gs, v, above + listSeen + {cursor}, items[0])
      && DescribesList(gs, rest, above, listSeen + {cursor}, SequenceKind(items[1..]));
    assert items[1..] == DescribeAll(paths[1..]);
  }

  lemma {:induction false} ListAnswersAreSpelled(gs: seq<Graph>, cursor: Term, above: set<Term>, listSeen: set<Term>,
        paths: seq<Path>)
    requires DescribesList(gs, cursor, above, listSeen, SequenceKind(DescribeAll(paths)))
    ensures SpellsList(gs, cursor, paths)
    decreases paths, 1
  {
    if paths != [] {
      var v, rest := ListAnswerParts(gs, cursor, above, listSeen, paths);
      AnswersAreSpelled(gs, v, above + listSeen + {cursor}, paths[0]);
      ListAnswersAreSpelled(gs, rest, above, listSeen + {cursor}, paths[1..]);
    }
  }
}
