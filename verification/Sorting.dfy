/** Sorting by a total order, repetitions kept, and why the result is canonical. */
module Sorting {
  ghost predicate TotalOrder<T(!new)>(le: (T, T) -> bool) {
    && (forall a, b :: le(a, b) || le(b, a))
    && (forall a, b | le(a, b) && le(b, a) :: a == b)
    && (forall a, b, c | le(a, b) && le(b, c) :: le(a, c))
  }

  ghost predicate InOrder<T>(le: (T, T) -> bool, q: seq<T>) {
    forall i, j | 0 <= i < j < |q| :: le(q[i], q[j])
  }

  function Insert<T>(le: (T, T) -> bool, x: T, q: seq<T>): seq<T> {
    if q == [] || le(x, q[0]) then [x] + q else [q[0]] + Insert(le, x, q[1..])
  }

  function Sort<T>(le: (T, T) -> bool, q: seq<T>): seq<T> {
    if q == [] then [] else Insert(le, q[0], Sort(le, q[1..]))
  }

  lemma ConsInOrder<T>(le: (T, T) -> bool, x: T, q: seq<T>)
    requires InOrder(le, q) && forall j | 0 <= j < |q| :: le(x, q[j])
    ensures InOrder(le, [x] + q)
  {
  }

  lemma {:induction false} InsertSorts<T(!new)>(le: (T, T) -> bool, x: T, q: seq<T>)
    requires TotalOrder(le) && InOrder(le, q)
    ensures InOrder(le, Insert(le, x, q)) && multiset(Insert(le, x, q)) == multiset(q) + multiset{x}
    decreases |q|
  {
    if q == [] || le(x, q[0]) {
      BelowFirst(le, x, q);
      ConsInOrder(le, x, q);
    } else {
      InsertSorts(le, x, q[1..]);
      var rest := Insert(le, x, q[1..]);
      TailContents(q);
      BelowContents(le, q[0], rest, x, q[1..]);
      ConsInOrder(le, q[0], rest);
      assert multiset([q[0]] + rest) == multiset{q[0]} + multiset(rest);
    }
  }

  lemma BelowFirst<T(!new)>(le: (T, T) -> bool, x: T, q: seq<T>)
    requires TotalOrder(le) && InOrder(le, q) && (q == [] || le(x, q[0]))
    ensures forall j | 0 <= j < |q| :: le(x, q[j])
  {
    forall j | 0 <= j < |q|
      ensures le(x, q[j])
    {
      assert j == 0 || le(q[0], q[j]);
    }
  }

  lemma BelowContents<T>(le: (T, T) -> bool, least: T, all: seq<T>, x: T, q: seq<T>)
    requires multiset(all) == multiset(q) + multiset{x}
    requires le(least, x) && forall j | 0 <= j < |q| :: le(least, q[j])
    ensures forall j | 0 <= j < |all| :: le(least, all[j])
  {
    forall j | 0 <= j < |all|
      ensures le(least, all[j])
    {
      assert all[j] in multiset(all);
      assert all[j] == x || all[j] in multiset(q);
    }
  }

  lemma {:induction false} SortSorts<T(!new)>(le: (T, T) -> bool, q: seq<T>)
    requires TotalOrder(le)
    ensures InOrder(le, Sort(le, q)) && multiset(Sort(le, q)) == multiset(q)
    decreases |q|
  {
    if q != [] {
      SortSorts(le, q[1..]);
      InsertSorts(le, q[0], Sort(le, q[1..]));
      TailContents(q);
    }
  }

  lemma TailContents<T>(q: seq<T>)
    requires q != []
    ensures q == [q[0]] + q[1..] && multiset(q[1..]) == multiset(q) - multiset{q[0]}
  {
  }

  lemma {:induction false} SortedByContents<T(!new)>(le: (T, T) -> bool, a: seq<T>, b: seq<T>)
    requires TotalOrder(le) && InOrder(le, a) && InOrder(le, b) && multiset(a) == multiset(b)
    ensures a == b
    decreases |a|
  {
    assert |a| == |multiset(a)| && |b| == |multiset(b)|;
    if a != [] {
      SameLeast(le, a, b);
      TailContents(a);
      TailContents(b);
      SortedByContents(le, a[1..], b[1..]);
    }
  }

  lemma SameLeast<T(!new)>(le: (T, T) -> bool, a: seq<T>, b: seq<T>)
    requires TotalOrder(le) && InOrder(le, a) && InOrder(le, b) && multiset(a) == multiset(b)
    requires a != [] && b != []
    ensures a[0] == b[0]
  {
    assert a[0] in multiset(b) && b[0] in multiset(a);
    var i :| 0 <= i < |a| && a[i] == b[0];
    var j :| 0 <= j < |b| && b[j] == a[0];
    assert le(a[0], a[i]) && le(b[0], b[j]);
  }

  /** Two lists sort to the same list exactly when they hold the same elements equally often. */
  lemma SortIsCanonical<T(!new)>(le: (T, T) -> bool, a: seq<T>, b: seq<T>)
    requires TotalOrder(le)
    ensures Sort(le, a) == Sort(le, b) <==> multiset(a) == multiset(b)
  {
    SortSorts(le, a);
    SortSorts(le, b);
    if multiset(a) == multiset(b) {
      SortedByContents(le, Sort(le, a), Sort(le, b));
    }
  }
}
