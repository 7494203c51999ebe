/** RDF list decoding: `rdf_list` of the OWL consistency gate. */
module RdfList {
  import opened Wrappers
  import opened Rdf
  import opened Enumeration

  const LIMIT: nat := 10_000

  datatype ListError = InvalidOrCyclic | BadCardinality

  /** A blank node with exactly one first value and exactly one rest. */
  ghost predicate Cell(g: Graph, node: Term, first: Term, rest: Term) {
    node.BNode? && Objects(g, node, RDF_FIRST) == {first} && Objects(g, node, RDF_REST) == {rest}
  }

  ghost predicate IsCell(g: Graph, node: Term) {
    exists first, rest :: Cell(g, node, first, rest)
  }

  ghost function First(g: Graph, node: Term): (first: Term)
    requires IsCell(g, node)
    ensures Objects(g, node, RDF_FIRST) == {first}
  {
    var first, rest :| Cell(g, node, first, rest); first
  }

  ghost function Rest(g: Graph, node: Term): (rest: Term)
    requires IsCell(g, node)
    ensures Objects(g, node, RDF_REST) == {rest}
  {
    var first, rest :| Cell(g, node, first, rest); rest
  }

  /** The term met after `k` rest steps from `head`, if every term left was a cell. */
  ghost function Nth(g: Graph, head: Term, k: nat): Option<Term> {
    if k == 0 then Some(head)
    else
      var before := Nth(g, head, k - 1);
      if before.Some? && IsCell(g, before.value) then Some(Rest(g, before.value)) else None
  }

  ghost predicate HoldsAt(g: Graph, head: Term, i: nat, value: Term) {
    var node := Nth(g, head, i);
    node.Some? && IsCell(g, node.value) && First(g, node.value) == value
  }

  ghost predicate Holds(g: Graph, head: Term, values: seq<Term>) {
    forall i: nat | i < |values| :: HoldsAt(g, head, i, values[i])
  }

  /** The graph holds the list `values` at `head`: the cells hold the values in order and
      the last one leads to nil. */
  ghost predicate IsList(g: Graph, head: Term, values: seq<Term>) {
    Holds(g, head, values) && Nth(g, head, |values|) == Some(RDF_NIL)
  }

  /** Within the limit the walk from `head` meets, before any repetition, a blank node
      with a missing or repeated first or rest. */
  ghost predicate MeetsBrokenCell(g: Graph, head: Term) {
    exists k: nat :: k < LIMIT && BrokenAt(g, head, k)
  }

  ghost predicate BrokenAt(g: Graph, head: Term, k: nat) {
    var node := Nth(g, head, k);
    node.Some? && node.value.BNode? && !IsCell(g, node.value)
  }

  /** The walk has met `node` before step `k`. */
  ghost predicate Met(g: Graph, head: Term, k: nat, node: Term) {
    exists i: nat :: i < k && Nth(g, head, i) == Some(node)
  }

  lemma Advance(g: Graph, head: Term, values: seq<Term>, current: Term)
    requires Holds(g, head, values) && Nth(g, head, |values|) == Some(current) && IsCell(g, current)
    ensures Holds(g, head, values + [First(g, current)])
    ensures Nth(g, head, |values| + 1) == Some(Rest(g, current))
    ensures forall n :: Met(g, head, |values| + 1, n) <==> Met(g, head, |values|, n) || n == current
  {
    var longer := values + [First(g, current)];
    forall i: nat | i < |longer|
      ensures HoldsAt(g, head, i, longer[i])
    {
      if i < |values| {
        assert HoldsAt(g, head, i, values[i]);
      }
    }
    forall n | Met(g, head, |values|, n) || n == current
      ensures Met(g, head, |values| + 1, n)
    {
      if n == current {
        assert Nth(g, head, |values|) == Some(n);
      } else {
        var i: nat :| i < |values| && Nth(g, head, i) == Some(n);
        assert i < |values| + 1;
      }
    }
  }

  method DecodeList(g: Graph, head: Term) returns (r: Result<seq<Term>, ListError>)
    ensures forall values :: r == Ok(values) <==> IsList(g, head, values) && |values| <= LIMIT
    ensures r == Err(BadCardinality) <==> MeetsBrokenCell(g, head)
  {
    var values: seq<Term> := [];
    var seen: set<Term> := {};
    var current := head;
    while current != RDF_NIL
      invariant Holds(g, head, values) && Nth(g, head, |values|) == Some(current)
      invariant forall n :: n in seen <==> Met(g, head, |values|, n)
      invariant |values| <= LIMIT
      decreases LIMIT - |values|
    {
      if !current.BNode? || current in seen || |values| >= LIMIT {
        WalkRefused(g, head, values, current);
        return Err(InvalidOrCyclic);
      }
      seen := seen + {current};
      var first := Enumerate(Objects(g, current, RDF_FIRST));
      var rest := Enumerate(Objects(g, current, RDF_REST));
      CellByCount(g, current, first, rest);
      if |first| != 1 || |rest| != 1 {
        assert BrokenAt(g, head, |values|);
        WalkStops(g, head, values, current);
        return Err(BadCardinality);
      }
      Advance(g, head, values, current);
      values := values + [first[0]];
      current := rest[0];
    }
    WalkStops(g, head, values, current);
    return Ok(values);
  }

  lemma CellByCount(g: Graph, node: Term, first: seq<Term>, rest: seq<Term>)
    requires node.BNode?
    requires Elements(first) == Objects(g, node, RDF_FIRST) && NoDuplicates(first)
    requires Elements(rest) == Objects(g, node, RDF_REST) && NoDuplicates(rest)
    ensures IsCell(g, node) <==> |first| == |rest| == 1
    ensures |first| == |rest| == 1 ==> First(g, node) == first[0] && Rest(g, node) == rest[0]
  {
    if |first| == |rest| == 1 {
      assert first[0] in Elements(first) && rest[0] in Elements(rest);
      assert Cell(g, node, first[0], rest[0]);
      assert First(g, node) in Elements(first) && Rest(g, node) in Elements(rest);
    }
    if IsCell(g, node) {
      Singleton(first, First(g, node));
      Singleton(rest, Rest(g, node));
    }
  }

  lemma Singleton(q: seq<Term>, x: Term)
    requires Elements(q) == {x} && NoDuplicates(q)
    ensures |q| == 1
  {
    assert |q| > 1 ==> q[0] != q[1];
    assert q != [] by {
      assert x in Elements(q);
    }
    forall i | 0 <= i < |q|
      ensures q[i] == x
    {
      assert q[i] in Elements(q);
    }
  }

  // ----- the walk is determined by its head

  lemma {:induction false} NthPrefix(g: Graph, head: Term, i: nat, k: nat)
    requires i <= k && Nth(g, head, k).Some?
    ensures Nth(g, head, i).Some?
    ensures i < k ==> IsCell(g, Nth(g, head, i).value)
    decreases k
  {
    if i < k {
      NthPrefix(g, head, i, k - 1);
    }
  }

  lemma {:induction false} NthSplit(g: Graph, head: Term, i: nat, t: nat)
    requires Nth(g, head, i).Some?
    ensures Nth(g, head, i + t) == Nth(g, Nth(g, head, i).value, t)
    decreases t
  {
    if t > 0 {
      NthSplit(g, head, i, t - 1);
    }
  }

  /** A walk that meets a term which is no cell has met it once: well-formed lists are acyclic. */
  lemma StopsOnce(g: Graph, head: Term, i: nat, j: nat, k: nat)
    requires i < j <= k && Nth(g, head, k).Some? && !IsCell(g, Nth(g, head, k).value)
    ensures Nth(g, head, i) != Nth(g, head, j)
  {
    NthPrefix(g, head, i, k);
    NthPrefix(g, head, j, k);
    if Nth(g, head, i) == Nth(g, head, j) {
      var m := i + (k - j);
      SameAhead(g, head, i, j, m, k);
      NthPrefix(g, head, m, k);
      assert false;
    }
  }

  /** Walks that meet once stay together. */
  lemma SameAhead(g: Graph, head: Term, i: nat, j: nat, m: nat, k: nat)
    requires Nth(g, head, i).Some? && Nth(g, head, i) == Nth(g, head, j)
    requires i <= m && j <= k && m - i == k - j
    ensures Nth(g, head, m) == Nth(g, head, k)
  {
    var t := k - j;
    NthSplit(g, head, i, t);
    NthSplit(g, head, j, t);
    assert i + t == m && j + t == k;
  }

  lemma NilIsNoCell(g: Graph)
    ensures !IsCell(g, RDF_NIL)
  {
  }

  /** Where a walk has stopped at a term that is no cell, only one list can be at its head. */
  lemma WalkStops(g: Graph, head: Term, values: seq<Term>, current: Term)
    requires Holds(g, head, values) && Nth(g, head, |values|) == Some(current) && |values| <= LIMIT
    requires !IsCell(g, current)
    ensures forall values' :: IsList(g, head, values') <==> current == RDF_NIL && values' == values
    ensures MeetsBrokenCell(g, head) <==> current.BNode? && |values| < LIMIT
  {
    NilIsNoCell(g);
    forall values' | IsList(g, head, values')
      ensures current == RDF_NIL && values' == values
    {
      if |values| < |values'| {
        NthPrefix(g, head, |values|, |values'|);
        assert false;
      } else if |values'| < |values| {
        NthPrefix(g, head, |values'|, |values|);
        assert false;
      } else {
        assert forall i: nat | i < |values| :: HoldsAt(g, head, i, values[i]) && HoldsAt(g, head, i, values'[i]);
      }
    }
    forall k: nat | BrokenAt(g, head, k)
      ensures k == |values|
    {
      if k < |values| {
        NthPrefix(g, head, k, |values|);
      } else if |values| < k {
        NthPrefix(g, head, |values|, k);
      }
    }
    if current.BNode? && |values| < LIMIT {
      assert BrokenAt(g, head, |values|);
    }
  }

  /** A walk refused at a term that is not blank, was met before, or lies past the limit. */
  lemma WalkRefused(g: Graph, head: Term, values: seq<Term>, current: Term)
    requires Holds(g, head, values) && Nth(g, head, |values|) == Some(current) && |values| <= LIMIT
    requires current != RDF_NIL
    requires !current.BNode? || |values| == LIMIT || Met(g, head, |values|, current)
    ensures forall values' :: |values'| <= LIMIT ==> !IsList(g, head, values')
    ensures !MeetsBrokenCell(g, head)
  {
    if !current.BNode? {
      WalkStops(g, head, values, current);
    } else {
      NilIsNoCell(g);
      forall k: nat | k <= LIMIT && Nth(g, head, k).Some? && !IsCell(g, Nth(g, head, k).value)
        ensures k == LIMIT == |values|
      {
        if k < |values| {
          NthPrefix(g, head, k, |values|);
        } else if i: nat :| i < |values| && Nth(g, head, i) == Some(current) {
          StopsOnce(g, head, i, |values|, k);
        }
      }
    }
  }

  lemma ListUnique(g: Graph, head: Term, values: seq<Term>, values': seq<Term>)
    requires IsList(g, head, values) && IsList(g, head, values')
    ensures values == values'
  {
    NilIsNoCell(g);
    if |values| < |values'| {
      NthPrefix(g, head, |values|, |values'|);
    } else if |values'| < |values| {
      NthPrefix(g, head, |values'|, |values|);
    }
    assert forall i: nat | i < |values| :: HoldsAt(g, head, i, values[i]) && HoldsAt(g, head, i, values'[i]);
  }

  /** A walk that comes back to a term it met holds no list at all. */
  lemma CyclicHoldsNoList(g: Graph, head: Term, i: nat, j: nat, values: seq<Term>)
    requires i < j && Nth(g, head, j).Some? && Nth(g, head, i) == Nth(g, head, j)
    ensures !IsList(g, head, values)
  {
    if IsList(g, head, values) {
      NilIsNoCell(g);
      if j <= |values| {
        StopsOnce(g, head, i, j, |values|);
      } else {
        NthPrefix(g, head, |values|, j);
      }
    }
  }

  // ----- encoding

  /** The node after position `i`: the next cell, or nil. */
  function NodeAt(nodes: seq<Term>, i: nat): Term
    requires i <= |nodes|
  {
    if i < |nodes| then nodes[i] else RDF_NIL
  }

  ghost predicate EncodedAt(g: Graph, nodes: seq<Term>, values: seq<Term>, i: nat)
    requires |nodes| == |values| && i < |nodes|
  {
    Cell(g, nodes[i], values[i], NodeAt(nodes, i + 1))
  }

  /** `nodes` are distinct blank nodes whose only first and rest triples in `g` write the
      list `values`, each node pointing to the next and the last to nil. */
  ghost predicate EncodedList(g: Graph, nodes: seq<Term>, values: seq<Term>) {
    && |nodes| == |values|
    && NoDuplicates(nodes)
    && forall i: nat | i < |nodes| :: EncodedAt(g, nodes, values, i)
  }

  lemma {:induction false} EncodedWalk(g: Graph, nodes: seq<Term>, values: seq<Term>, k: nat)
    requires EncodedList(g, nodes, values) && k <= |nodes|
    ensures Nth(g, NodeAt(nodes, 0), k) == Some(NodeAt(nodes, k))
    ensures k < |nodes| ==> HoldsAt(g, NodeAt(nodes, 0), k, values[k])
    decreases k
  {
    if k > 0 {
      EncodedWalk(g, nodes, values, k - 1);
      assert EncodedAt(g, nodes, values, k - 1);
    }
    if k < |nodes| {
      assert EncodedAt(g, nodes, values, k);
      assert First(g, nodes[k]) in {values[k]};
    }
    if k > 0 {
      assert Rest(g, nodes[k - 1]) in {NodeAt(nodes, k)};
    }
  }

  /** Decoding inverts encoding, both ways: a graph holds a list exactly when distinct
      blank nodes in it write that list. */
  lemma ListsAreEncodings(g: Graph, head: Term, values: seq<Term>)
    ensures IsList(g, head, values) <==> exists nodes :: EncodedList(g, nodes, values) && NodeAt(nodes, 0) == head
  {
    if nodes :| EncodedList(g, nodes, values) && NodeAt(nodes, 0) == head {
      forall i: nat | i < |values|
        ensures HoldsAt(g, head, i, values[i])
      {
        EncodedWalk(g, nodes, values, i);
      }
      EncodedWalk(g, nodes, values, |nodes|);
    }
    if IsList(g, head, values) {
      NilIsNoCell(g);
      var n := |values|;
      forall i: nat | i < n
        ensures Nth(g, head, i).Some?
      {
        assert HoldsAt(g, head, i, values[i]);
      }
      var nodes := seq(n, i requires 0 <= i < n => Nth(g, head, i).value);
      forall i, j | 0 <= i < j < n
        ensures nodes[i] != nodes[j]
      {
        StopsOnce(g, head, i, j, n);
      }
      forall i: nat | i < n
        ensures EncodedAt(g, nodes, values, i)
      {
        assert HoldsAt(g, head, i, values[i]);
        assert Nth(g, head, i + 1) == Some(Rest(g, nodes[i]));
      }
      assert EncodedList(g, nodes, values);
    }
  }
}
