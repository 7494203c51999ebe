/** Writing a path tree as triples on fresh blank nodes, and reading it back. */
module PathEncoding {
  import opened Rdf
  import opened ResultPath
  import opened PathTree

  /** The root term, the triples written, and the first unused blank node number. */
  datatype Encoded = Encoded(root: Term, triples: Graph, next: nat)

  function Encode(name: nat -> Term, tree: Path, k: nat): Encoded
    decreases tree, 0
  {
    match tree
    case Predicate(iri) => Encoded(IRI(iri), {}, k)
    case Repeat(op, path) =>
      var inner := Encode(name, path, k + 1);
      Encoded(name(k), inner.triples + {Triple(name(k), OperatorPredicate(op), inner.root)}, inner.next)
    case Alternative(paths) =>
      var inner := EncodeList(name, paths, k + 1);
      Encoded(name(k), inner.triples + {Triple(name(k), SH_ALTERNATIVE_PATH, inner.root)}, inner.next)
    case Sequence(paths) => EncodeList(name, paths, k)
  }

  function EncodeList(name: nat -> Term, paths: seq<Path>, k: nat): Encoded
    decreases paths, 1
  {
    if paths == [] then Encoded(RDF_NIL, {}, k)
    else
      var first := Encode(name, paths[0], k + 1);
      var rest := EncodeList(name, paths[1..], first.next);
      Encoded(name(k), first.triples + rest.triples
        + {Triple(name(k), RDF_FIRST, first.root), Triple(name(k), RDF_REST, rest.root)}, rest.next)
  }

  /** A supply of distinct blank nodes. */
  ghost predicate Fresh(name: nat -> Term) {
    (forall i: nat :: name(i).BNode?) && (forall i: nat, j: nat | name(i) == name(j) :: i == j)
  }

  ghost function Occurrences(gs: seq<Graph>, t: Triple): nat
    decreases |gs|
  {
    if gs == [] then 0 else Occurrences(gs[..|gs| - 1], t) + if t in gs[|gs| - 1] then 1 else 0
  }

  /** What the decoder looks at. */
  const PATH_PREDICATES := PATH_OPERATORS + {RDF_FIRST, RDF_REST}

  ghost predicate PlacedAt(gs: seq<Graph>, triples: Graph, node: Term) {
    forall p, o | p in PATH_PREDICATES ::
      Occurrences(gs, Triple(node, p, o)) == if Triple(node, p, o) in triples then 1 else 0
  }

  /** Each written triple lies in exactly one of the graphs, and they have no other triple of the
      path vocabulary with one of the blank nodes as its subject. */
  ghost predicate Placed(gs: seq<Graph>, name: nat -> Term, triples: Graph, k: nat, next: nat) {
    forall i: nat | k <= i < next :: PlacedAt(gs, triples, name(i))
  }

  /** Only the blank nodes numbered from `k` up to the next unused one are subjects. */
  ghost predicate SubjectsWithin(name: nat -> Term, e: Encoded, k: nat) {
    && k <= e.next
    && forall t, i: nat | t in e.triples && t.s == name(i) :: k <= i < e.next
  }

  lemma {:induction false} EncodeWithin(name: nat -> Term, tree: Path, k: nat)
    requires Fresh(name)
    ensures SubjectsWithin(name, Encode(name, tree, k), k)
    decreases tree, 0
  {
    match tree
    case Predicate(_) =>
    case Repeat(_, path) => EncodeWithin(name, path, k + 1);
    case Alternative(paths) => EncodeListWithin(name, paths, k + 1);
    case Sequence(paths) => EncodeListWithin(name, paths, k);
  }

  lemma {:induction false} EncodeListWithin(name: nat -> Term, paths: seq<Path>, k: nat)
    requires Fresh(name)
    ensures SubjectsWithin(name, EncodeList(name, paths, k), k)
    ensures paths != [] ==> EncodeList(name, paths, k).next > k
    decreases paths, 1
  {
    if paths != [] {
      EncodeWithin(name, paths[0], k + 1);
      EncodeListWithin(name, paths[1..], Encode(name, paths[0], k + 1).next);
    }
  }

  // ----- reading what was placed

  lemma {:induction false} PlacedNone(gs: seq<Graph>, s: Term, p: Term)
    requires forall o :: Occurrences(gs, Triple(s, p, o)) == 0
    ensures AnyObjects(gs, s, p) == {} && CountObjects(gs, s, p) == 0
    decreases |gs|
  {
    if gs != [] {
      forall o
        ensures o !in Objects(gs[|gs| - 1], s, p) && Occurrences(gs[..|gs| - 1], Triple(s, p, o)) == 0
      {
        ObjectsMember(gs[|gs| - 1], s, p, o);
        assert Occurrences(gs, Triple(s, p, o)) == 0;
      }
      PlacedNone(gs[..|gs| - 1], s, p);
      assert Objects(gs[|gs| - 1], s, p) == {};
    }
  }

  lemma {:induction false} PlacedOnce(gs: seq<Graph>, s: Term, p: Term, v: Term)
    requires forall o :: Occurrences(gs, Triple(s, p, o)) == if o == v then 1 else 0
    ensures Only(gs, s, p, v)
    decreases |gs|
  {
    assert Occurrences(gs, Triple(s, p, v)) == 1;
    forall o
      ensures o in Objects(gs[|gs| - 1], s, p) <==> Triple(s, p, o) in gs[|gs| - 1]
      ensures o != v ==> o !in Objects(gs[|gs| - 1], s, p) && Occurrences(gs[..|gs| - 1], Triple(s, p, o)) == 0
    {
      ObjectsMember(gs[|gs| - 1], s, p, o);
      assert Occurrences(gs, Triple(s, p, o)) == if o == v then 1 else 0;
    }
    if Triple(s, p, v) in gs[|gs| - 1] {
      assert Objects(gs[|gs| - 1], s, p) == {v};
      PlacedNone(gs[..|gs| - 1], s, p);
    } else {
      assert Objects(gs[|gs| - 1], s, p) == {};
      PlacedOnce(gs[..|gs| - 1], s, p, v);
    }
  }

  lemma PathVocabularyDistinct()
    ensures forall a, b | OperatorPredicate(a) == OperatorPredicate(b) :: a == b
    ensures forall a :: OperatorPredicate(a) !in {SH_ALTERNATIVE_PATH, RDF_FIRST, RDF_REST}
    ensures SH_ALTERNATIVE_PATH != RDF_FIRST && SH_ALTERNATIVE_PATH != RDF_REST && RDF_FIRST != RDF_REST
  {
    var n := |SH_NS|;
    assert OperatorPredicate(Inverse).value[n..] == "inversePath";
    assert OperatorPredicate(ZeroOrMore).value[n..] == "zeroOrMorePath";
    assert OperatorPredicate(OneOrMore).value[n..] == "oneOrMorePath";
    assert OperatorPredicate(ZeroOrOne).value[n..] == "zeroOrOnePath";
    assert SH_ALTERNATIVE_PATH.value[n..] == "alternativePath";
    assert |"inversePath"| == 11 && |"zeroOrMorePath"| == 14 && |"oneOrMorePath"| == 13 && |"zeroOrOnePath"| == 13;
    assert "oneOrMorePath"[0] != "zeroOrOnePath"[0];
    assert |"alternativePath"| == 15;
    assert |RDF_FIRST.value| == 48 && |RDF_REST.value| == 47;
    assert n == 27;
  }

  lemma NodeOperators(gs: seq<Graph>, triples: Graph, node: Term)
    requires PlacedAt(gs, triples, node)
    ensures forall p | p in PATH_PREDICATES && (forall o :: Triple(node, p, o) !in triples) ::
      AnyObjects(gs, node, p) == {}
    ensures forall p, v | p in PATH_PREDICATES && (forall o :: Triple(node, p, o) in triples <==> o == v) ::
      Only(gs, node, p, v)
  {
    forall p | p in PATH_PREDICATES && forall o :: Triple(node, p, o) !in triples
      ensures AnyObjects(gs, node, p) == {}
    {
      PlacedNone(gs, node, p);
    }
    forall p, v | p in PATH_PREDICATES && forall o :: Triple(node, p, o) in triples <==> o == v
      ensures Only(gs, node, p, v)
    {
      PlacedOnce(gs, node, p, v);
    }
  }

  /** A part's triples are placed where the whole is, if the rest of the whole is about
      other blank nodes. */
  lemma PlacedPart(gs: seq<Graph>, name: nat -> Term, whole: Graph, part: Encoded, lo: nat, k: nat, next: nat)
    requires Placed(gs, name, whole, lo, next) && lo <= k && part.next <= next
    requires part.triples <= whole
    requires forall t, i: nat | t in whole && t.s == name(i) && k <= i < part.next :: t in part.triples
    ensures Placed(gs, name, part.triples, k, part.next)
  {
  }

  // ----- the encoding is well formed

  lemma {:induction false} EncodedIsEncoding(gs: seq<Graph>, name: nat -> Term, tree: Path, k: nat)
    requires Fresh(name) && WellFormed(tree)
    requires Placed(gs, name, Encode(name, tree, k).triples, k, Encode(name, tree, k).next)
    ensures Encodes(gs, Encode(name, tree, k).root, tree)
    decreases tree, 0
  {
    match tree
    case Predicate(_) =>
    case Repeat(op, path) =>
      var inner := Encode(name, path, k + 1);
      EncodeWithin(name, path, k + 1);
      OperatorsArePaths(op);
      OneTripleNode(gs, name, inner, k, OperatorPredicate(op));
      OperatorNode(gs, name(k), op, inner.root);
      EncodedIsEncoding(gs, name, path, k + 1);
      RepeatEncodes(gs, name(k), op, inner.root, path);
    case Alternative(paths) =>
      var inner := EncodeList(name, paths, k + 1);
      EncodeListWithin(name, paths, k + 1);
      AlternativeIsPath();
      OneTripleNode(gs, name, inner, k, SH_ALTERNATIVE_PATH);
      AlternativeNode(gs, name(k));
      EncodedListIsEncoding(gs, name, paths, k + 1);
      AlternativeEncodes(gs, name(k), inner.root, paths);
    case Sequence(paths) => EncodedListIsEncoding(gs, name, paths, k);
  }

  lemma OperatorsArePaths(op: Operator)
    ensures OperatorPredicate(op) in PATH_PREDICATES
  {
  }

  lemma AlternativeIsPath()
    ensures SH_ALTERNATIVE_PATH in PATH_PREDICATES
  {
  }

  lemma RepeatEncodes(gs: seq<Graph>, node: Term, op: Operator, v: Term, path: Path)
    requires node.BNode? && OnlyOperator(gs, node, op) && Only(gs, node, OperatorPredicate(op), v)
      && Encodes(gs, v, path)
    ensures Encodes(gs, node, Repeat(op, path))
  {
  }

  lemma AlternativeEncodes(gs: seq<Graph>, node: Term, head: Term, paths: seq<Path>)
    requires node.BNode? && NoOperator(gs, node) && AnyObjects(gs, node, RDF_FIRST) == {} && paths != []
    requires Only(gs, node, SH_ALTERNATIVE_PATH, head) && EncodesList(gs, head, paths)
    ensures Encodes(gs, node, Alternative(paths))
  {
  }

  /** The node that carries one triple above an inner encoding. */
  lemma OneTripleNode(gs: seq<Graph>, name: nat -> Term, inner: Encoded, k: nat, p: Term)
    requires Fresh(name) && SubjectsWithin(name, inner, k + 1) && p in PATH_PREDICATES
    requires Placed(gs, name, inner.triples + {Triple(name(k), p, inner.root)}, k, inner.next)
    ensures Only(gs, name(k), p, inner.root)
    ensures forall q | q in PATH_PREDICATES && q != p :: AnyObjects(gs, name(k), q) == {}
    ensures Placed(gs, name, inner.triples, k + 1, inner.next)
  {
    var triples := inner.triples + {Triple(name(k), p, inner.root)};
    assert PlacedAt(gs, triples, name(k));
    forall q, o
      ensures Triple(name(k), q, o) in triples <==> q == p && o == inner.root
    {
      assert Triple(name(k), q, o).s == name(k);
    }
    NodeOperators(gs, triples, name(k));
    PlacedPart(gs, name, triples, inner, k, k + 1, inner.next);
  }

  lemma OperatorNode(gs: seq<Graph>, node: Term, op: Operator, v: Term)
    requires Only(gs, node, OperatorPredicate(op), v)
    requires forall q | q in PATH_PREDICATES && q != OperatorPredicate(op) :: AnyObjects(gs, node, q) == {}
    ensures OnlyOperator(gs, node, op)
  {
    PathVocabularyDistinct();
  }

  lemma AlternativeNode(gs: seq<Graph>, node: Term)
    requires forall q | q in PATH_PREDICATES && q != SH_ALTERNATIVE_PATH :: AnyObjects(gs, node, q) == {}
    ensures NoOperator(gs, node) && AnyObjects(gs, node, RDF_FIRST) == {}
  {
    PathVocabularyDistinct();
  }

  lemma {:induction false} EncodedListIsEncoding(gs: seq<Graph>, name: nat -> Term, paths: seq<Path>, k: nat)
    requires Fresh(name) && forall p | p in paths :: WellFormed(p)
    requires Placed(gs, name, EncodeList(name, paths, k).triples, k, EncodeList(name, paths, k).next)
    ensures EncodesList(gs, EncodeList(name, paths, k).root, paths)
    decreases paths, 1
  {
    if paths != [] {
      var first := Encode(name, paths[0], k + 1);
      var rest := EncodeList(name, paths[1..], first.next);
      CellReady(gs, name, paths, k);
      EncodedIsEncoding(gs, name, paths[0], k + 1);
      EncodedListIsEncoding(gs, name, paths[1..], first.next);
      CellEncodes(gs, name(k), first.root, rest.root, paths);
    }
  }

  lemma CellReady(gs: seq<Graph>, name: nat -> Term, paths: seq<Path>, k: nat)
    requires Fresh(name) && paths != [] && forall p | p in paths :: WellFormed(p)
    requires Placed(gs, name, EncodeList(name, paths, k).triples, k, EncodeList(name, paths, k).next)
    ensures var first := Encode(name, paths[0], k + 1);
            var rest := EncodeList(name, paths[1..], first.next);
            && WellFormed(paths[0]) && Placed(gs, name, first.triples, k + 1, first.next)
            && (forall p | p in paths[1..] :: WellFormed(p)) && Placed(gs, name, rest.triples, first.next, rest.next)
            && Only(gs, name(k), RDF_FIRST, first.root) && Only(gs, name(k), RDF_REST, rest.root)
            && name(k).BNode? && NoOperator(gs, name(k)) && AnyObjects(gs, name(k), SH_ALTERNATIVE_PATH) == {}
  {
    var first := Encode(name, paths[0], k + 1);
    var rest := EncodeList(name, paths[1..], first.next);
    EncodeWithin(name, paths[0], k + 1);
    EncodeListWithin(name, paths[1..], first.next);
    CellNode(gs, name, first, rest, k);
    CellParts(gs, name, first, rest, k);
    assert paths[0] in paths && forall p | p in paths[1..] :: p in paths;
  }

  /** A list cell above the encodings of its value and of the rest of the list. */
  function CellTriples(name: nat -> Term, first: Encoded, rest: Encoded, k: nat): Graph {
    first.triples + rest.triples + {Triple(name(k), RDF_FIRST, first.root), Triple(name(k), RDF_REST, rest.root)}
  }

  lemma CellNode(gs: seq<Graph>, name: nat -> Term, first: Encoded, rest: Encoded, k: nat)
    requires Fresh(name) && SubjectsWithin(name, first, k + 1) && SubjectsWithin(name, rest, first.next)
    requires Placed(gs, name, CellTriples(name, first, rest, k), k, rest.next)
    ensures Only(gs, name(k), RDF_FIRST, first.root) && Only(gs, name(k), RDF_REST, rest.root)
    ensures NoOperator(gs, name(k)) && AnyObjects(gs, name(k), SH_ALTERNATIVE_PATH) == {}
  {
    var triples := CellTriples(name, first, rest, k);
    assert PlacedAt(gs, triples, name(k));
    forall q, o
      ensures Triple(name(k), q, o) in triples
         <==> (q == RDF_FIRST && o == first.root) || (q == RDF_REST && o == rest.root)
    {
      assert Triple(name(k), q, o).s == name(k);
    }
    CellVocabulary(gs, triples, name(k), first.root, rest.root);
  }

  lemma CellVocabulary(gs: seq<Graph>, triples: Graph, node: Term, first: Term, rest: Term)
    requires PlacedAt(gs, triples, node)
    requires forall q, o ::
      Triple(node, q, o) in triples <==> (q == RDF_FIRST && o == first) || (q == RDF_REST && o == rest)
    ensures Only(gs, node, RDF_FIRST, first) && Only(gs, node, RDF_REST, rest)
    ensures NoOperator(gs, node) && AnyObjects(gs, node, SH_ALTERNATIVE_PATH) == {}
  {
    PathVocabularyDistinct();
    PlacedOnce(gs, node, RDF_FIRST, first);
    PlacedOnce(gs, node, RDF_REST, rest);
    PlacedNone(gs, node, SH_ALTERNATIVE_PATH);
    CellHasNoOperator(gs, triples, node);
  }

  lemma CellHasNoOperator(gs: seq<Graph>, triples: Graph, node: Term)
    requires PlacedAt(gs, triples, node)
    requires forall q, o | Triple(node, q, o) in triples :: q == RDF_FIRST || q == RDF_REST
    ensures NoOperator(gs, node)
  {
    PathVocabularyDistinct();
    PlacedNone(gs, node, OperatorPredicate(Inverse));
    PlacedNone(gs, node, OperatorPredicate(ZeroOrMore));
    PlacedNone(gs, node, OperatorPredicate(OneOrMore));
    PlacedNone(gs, node, OperatorPredicate(ZeroOrOne));
  }

  lemma CellEncodes(gs: seq<Graph>, head: Term, v: Term, rest: Term, paths: seq<Path>)
    requires paths != [] && head.BNode? && NoOperator(gs, head) && AnyObjects(gs, head, SH_ALTERNATIVE_PATH) == {}
    requires Only(gs, head, RDF_FIRST, v) && Only(gs, head, RDF_REST, rest)
    requires Encodes(gs, v, paths[0]) && EncodesList(gs, rest, paths[1..])
    ensures EncodesList(gs, head, paths)
  {
  }

  lemma CellParts(gs: seq<Graph>, name: nat -> Term, first: Encoded, rest: Encoded, k: nat)
    requires Fresh(name) && SubjectsWithin(name, first, k + 1) && SubjectsWithin(name, rest, first.next)
    requires Placed(gs, name, CellTriples(name, first, rest, k), k, rest.next)
    ensures Placed(gs, name, first.triples, k + 1, first.next)
    ensures Placed(gs, name, rest.triples, first.next, rest.next)
  {
  }

  /** Writing a well-formed tree with distinct blank nodes, its triples spread over the
      graphs without repetition, and decoding its root gives the tree's descriptor. */
  lemma EncodeThenDecode(gs: seq<Graph>, name: nat -> Term, tree: Path, d: Descriptor)
    requires Fresh(name) && WellFormed(tree)
    requires Placed(gs, name, Encode(name, tree, 0).triples, 0, Encode(name, tree, 0).next)
    requires Describes(gs, Encode(name, tree, 0).root, {}, d)
    ensures d == Describe(tree)
  {
    EncodedIsEncoding(gs, name, tree, 0);
    PathRoundTrip(gs, Encode(name, tree, 0).root, tree, d);
  }

  /** The two-graph case: however the triples are divided between report and shapes, and whatever
      else the two say, they are read back. */
  lemma DividedThenDecoded(left: Graph, right: Graph, name: nat -> Term, tree: Path, d: Descriptor)
    requires Fresh(name) && WellFormed(tree)
    requires var e := Encode(name, tree, 0);
             && e.triples <= left + right && e.triples * left * right == {}
             && forall t, i: nat | t in left + right && t.s == name(i) && i < e.next && t.p in PATH_PREDICATES ::
                  t in e.triples
    requires Describes([left, right], Encode(name, tree, 0).root, {}, d)
    ensures d == Describe(tree)
  {
    var e := Encode(name, tree, 0);
    forall i: nat | i < e.next
      ensures PlacedAt([left, right], e.triples, name(i))
    {
      forall p, o | p in PATH_PREDICATES
        ensures Occurrences([left, right], Triple(name(i), p, o)) == if Triple(name(i), p, o) in e.triples then 1 else 0
      {
        var t := Triple(name(i), p, o);
        OccurrencesInTwo(left, right, t);
        assert t.s == name(i) && (t in left + right <==> t in left || t in right);
        assert t in e.triples * left * right <==> t in e.triples && t in left && t in right;
      }
    }
    EncodeThenDecode([left, right], name, tree, d);
  }

  lemma OccurrencesInTwo(left: Graph, right: Graph, t: Triple)
    ensures Occurrences([left, right], t) == (if t in left then 1 else 0) + if t in right then 1 else 0
  {
    assert [left, right][..1] == [left] && [left][..0] == [];
    assert Occurrences([], t) == 0;
    assert Occurrences([left], t) == if t in left then 1 else 0;
  }
}
