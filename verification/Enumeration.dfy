/** Python leaves the iteration order of a set open; `Enumerate` yields some order. */
module Enumeration {
  function Elements<T>(q: seq<T>): set<T> {
    set x | x in q
  }

  ghost predicate NoDuplicates<T>(q: seq<T>) {
    forall i, j :: 0 <= i < j < |q| ==> q[i] != q[j]
  }

  lemma AppendElements<T>(a: seq<T>, b: seq<T>)
    ensures Elements(a + b) == Elements(a) + Elements(b)
  {
  }

  lemma NextElement<T>(q: seq<T>, i: nat)
    requires NoDuplicates(q) && i < |q|
    ensures Elements(q[..i + 1]) == Elements(q[..i]) + {q[i]}
    ensures q[i] !in Elements(q[..i])
  {
    assert q[..i + 1] == q[..i] + [q[i]];
  }

  method Enumerate<T(==)>(s: set<T>) returns (q: seq<T>)
    ensures Elements(q) == s
    ensures NoDuplicates(q)
    ensures |q| == |s|
  {
    q := [];
    var rest := s;
    while rest != {}
      invariant Elements(q) + rest == s
      invariant Elements(q) !! rest
      invariant NoDuplicates(q)
      invariant |q| + |rest| == |s|
      decreases rest
    {
      var x :| x in rest;
      q := q + [x];
      rest := rest - {x};
    }
  }
}
