/** Pairs declared disjoint, one by one or by a list, and their clash with equivalence. */
module Disjointness {
  import opened Wrappers
  import opened Rdf
  import opened Enumeration
  import opened RdfList
  import opened Walks
  import opened Equivalence

  const OWL_DISJOINT_WITH := IRI(OWL_NS + "disjointWith")
  const OWL_PROPERTY_DISJOINT_WITH := IRI(OWL_NS + "propertyDisjointWith")
  const OWL_ALL_DISJOINT_CLASSES := IRI(OWL_NS + "AllDisjointClasses")
  const OWL_ALL_DISJOINT_PROPERTIES := IRI(OWL_NS + "AllDisjointProperties")
  const OWL_MEMBERS := IRI(OWL_NS + "members")

  type Pairs = set<(Term, Term)>

  /** The list heads of the groups of one kind. */
  function Heads(g: Graph, kind: Term, memberPredicates: set<Term>): set<Term> {
    set node, p, head |
      node in Subjects(g, RDF_TYPE, kind) && p in memberPredicates && head in Objects(g, node, p) :: head
  }

  ghost predicate HoldsList(g: Graph, head: Term) {
    exists values :: IsList(g, head, values) && |values| <= LIMIT
  }

  ghost predicate InOrder(values: seq<Term>, a: Term, b: Term) {
    exists i, j :: 0 <= i < j < |values| && values[i] == a && values[j] == b
  }

  /** `a` stands before `b` in the list at `head`. */
  ghost predicate ListedBefore(g: Graph, head: Term, a: Term, b: Term) {
    exists values :: IsList(g, head, values) && InOrder(values, a, b)
  }

  ghost predicate ListedInSome(g: Graph, heads: set<Term>, a: Term, b: Term) {
    exists head :: head in heads && ListedBefore(g, head, a, b)
  }

  /** The pairs (left, right) with left earlier in `values`. */
  method AddOrderedPairs(values: seq<Term>, pairs: Pairs) returns (all: Pairs)
    ensures forall a, b :: (a, b) in all <==> (a, b) in pairs || InOrder(values, a, b)
  {
    all := pairs;
    for i := 0 to |values|
      invariant forall a, b :: (a, b) in all <==>
        (a, b) in pairs || exists k, j :: 0 <= k < i && k < j < |values| && values[k] == a && values[j] == b
    {
      ghost var before := all;
      for j := i + 1 to |values|
        invariant forall a, b :: (a, b) in all <==>
          (a, b) in before || (a == values[i] && exists l :: i < l < j && values[l] == b)
      {
        all := all + {(values[i], values[j])};
      }
    }
  }

  method DecodeGroup(g: Graph, head: Term) returns (r: Result<seq<Term>, ListError>)
    ensures r.Ok? <==> HoldsList(g, head)
    ensures r.Ok? ==> forall a, b :: ListedBefore(g, head, a, b) <==> InOrder(r.value, a, b)
  {
    r := DecodeList(g, head);
    if r.Ok? {
      assert r == Ok(r.value);
      ListedIsInOrder(g, head, r.value);
    } else {
      assert forall values :: r != Ok(values);
    }
  }

  lemma ListedIsInOrder(g: Graph, head: Term, values: seq<Term>)
    requires IsList(g, head, values)
    ensures forall a, b :: ListedBefore(g, head, a, b) <==> InOrder(values, a, b)
  {
    forall values' | IsList(g, head, values')
      ensures values' == values
    {
      ListUnique(g, head, values, values');
    }
  }

  ghost predicate AllHoldLists(g: Graph, heads: set<Term>) {
    forall head | head in heads :: HoldsList(g, head)
  }

  /** `pairs` are the ordered pairs of the lists at `heads`, all of which decode. */
  ghost predicate PairsOfLists(g: Graph, heads: set<Term>, pairs: Pairs) {
    && AllHoldLists(g, heads)
    && forall a, b :: (a, b) in pairs <==> ListedInSome(g, heads, a, b)
  }

  /** The ordered pairs of every list at one of the heads; a list that cannot be decoded
      stops the gate. */
  method ListedPairs(g: Graph, heads: set<Term>) returns (r: Result<Pairs, ListError>)
    ensures r.Ok? <==> AllHoldLists(g, heads)
    ensures r.Ok? ==> PairsOfLists(g, heads, r.value)
  {
    var pairs: Pairs := {};
    var order := Enumerate(heads);
    for i := 0 to |order|
      invariant PairsOfLists(g, Elements(order[..i]), pairs)
    {
      var decoded := DecodeGroup(g, order[i]);
      if decoded.Err? {
        assert order[i] in Elements(order);
        return Err(decoded.error);
      }
      ghost var before := pairs;
      pairs := AddOrderedPairs(decoded.value, pairs);
      ListedStep(g, Elements(order[..i]), order[i], decoded.value, before, pairs);
      assert Elements(order[..i + 1]) == Elements(order[..i]) + {order[i]};
    }
    assert order[..|order|] == order;
    return Ok(pairs);
  }

  lemma ListedStep(g: Graph, heads: set<Term>, head: Term, values: seq<Term>, before: Pairs, pairs: Pairs)
    requires PairsOfLists(g, heads, before) && HoldsList(g, head)
    requires forall a, b :: ListedBefore(g, head, a, b) <==> InOrder(values, a, b)
    requires forall a, b :: (a, b) in pairs <==> (a, b) in before || InOrder(values, a, b)
    ensures PairsOfLists(g, heads + {head}, pairs)
  {
  }

  /** Pairs declared disjoint directly, and pairs listed in one group. */
  ghost predicate DeclaredDisjoint(g: Graph, direct: Term, kind: Term, a: Term, b: Term) {
    Triple(a, direct, b) in g || ListedInSome(g, Heads(g, kind, {OWL_MEMBERS}), a, b)
  }

  method DisjointPairs(g: Graph, direct: Term, kind: Term) returns (r: Result<Pairs, ListError>)
    ensures r.Ok? <==> AllHoldLists(g, Heads(g, kind, {OWL_MEMBERS}))
    ensures r.Ok? ==> forall a, b :: (a, b) in r.value <==> DeclaredDisjoint(g, direct, kind, a, b)
  {
    var listed := ListedPairs(g, Heads(g, kind, {OWL_MEMBERS}));
    if listed.Err? {
      return listed;
    }
    r := Ok(SubjectObjects(g, direct) + listed.value);
    forall a, b
      ensures (a, b) in r.value <==> DeclaredDisjoint(g, direct, kind, a, b)
    {
      SubjectObjectsMember(g, direct, a, b);
    }
  }

  // ----- the equivalence check

  /** No declared pair is equivalent. */
  ghost predicate DisjointnessSilent(g: Graph, direct: Term, kind: Term, equivalence: Term) {
    forall a, b :: DeclaredDisjoint(g, direct, kind, a, b) ==> !Equivalent(g, equivalence, a, b)
  }

  /** The enumeration visits each pair of positions once, in one orientation; nothing is
      lost: the check is silent exactly when no directly declared pair is equivalent and
      members at different positions of a list are never equivalent, hence also distinct. */
  lemma OneOrientationSuffices(g: Graph, direct: Term, kind: Term, equivalence: Term)
    ensures DisjointnessSilent(g, direct, kind, equivalence)
       <==> (&& (forall a, b :: Triple(a, direct, b) in g ==> !Equivalent(g, equivalence, a, b))
             && (forall head, values, i, j ::
                   head in Heads(g, kind, {OWL_MEMBERS}) && IsList(g, head, values)
                   && 0 <= i < |values| && 0 <= j < |values| && i != j
                   ==> values[i] != values[j] && !Equivalent(g, equivalence, values[i], values[j])))
  {
    var heads := Heads(g, kind, {OWL_MEMBERS});
    if DisjointnessSilent(g, direct, kind, equivalence) {
      forall head, values, i, j | head in heads && IsList(g, head, values)
          && 0 <= i < |values| && 0 <= j < |values| && i != j
        ensures values[i] != values[j] && !Equivalent(g, equivalence, values[i], values[j])
      {
        var lo, hi := if i < j then i else j, if i < j then j else i;
        assert InOrder(values, values[lo], values[hi]);
        assert ListedBefore(g, head, values[lo], values[hi]);
        assert DeclaredDisjoint(g, direct, kind, values[lo], values[hi]);
        ReachesSelf(SymmetricEdges(g, equivalence), values[lo]);
        if Equivalent(g, equivalence, values[i], values[j]) {
          Symmetric(g, equivalence, values[i], values[j]);
          assert false;
        }
      }
    }
  }
}
