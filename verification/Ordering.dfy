/** Code-point order on strings, sorting, and why a sorted sequence is canonical. */
module Ordering {
  import opened Enumeration
  import opened Sorting

  /** Python's order on strings and byte strings: first difference, then length. */
  predicate LexLess(a: seq<int>, b: seq<int>)
    decreases |a|
  {
    |b| > 0 && (|a| == 0 || a[0] < b[0] || (a[0] == b[0] && LexLess(a[1..], b[1..])))
  }

  lemma {:induction false} LexTransitive(a: seq<int>, b: seq<int>, c: seq<int>)
    requires LexLess(a, b) && LexLess(b, c)
    ensures LexLess(a, c)
    decreases |a|
  {
    if |a| > 0 && a[0] == b[0] == c[0] {
      LexTransitive(a[1..], b[1..], c[1..]);
    }
  }

  lemma {:induction false} LexIrreflexive(a: seq<int>)
    ensures !LexLess(a, a)
    decreases |a|
  {
    if |a| > 0 {
      LexIrreflexive(a[1..]);
    }
  }

  lemma {:induction false} LexTotal(a: seq<int>, b: seq<int>)
    ensures a == b || LexLess(a, b) || LexLess(b, a)
    decreases |a|
  {
    if |a| > 0 && |b| > 0 && a[0] == b[0] {
      LexTotal(a[1..], b[1..]);
      assert a == [a[0]] + a[1..] && b == [b[0]] + b[1..];
    }
  }

  function Codes(text: string): (codes: seq<int>)
    ensures |codes| == |text| && forall i :: 0 <= i < |text| ==> codes[i] == text[i] as int
  {
    seq(|text|, i requires 0 <= i < |text| => text[i] as int)
  }

  predicate StringLess(a: string, b: string) {
    LexLess(Codes(a), Codes(b))
  }

  lemma StringOrder(a: string, b: string)
    ensures !(StringLess(a, b) && StringLess(b, a))
    ensures a == b ==> !StringLess(a, b)
    ensures a == b || StringLess(a, b) || StringLess(b, a)
  {
    LexTotal(Codes(a), Codes(b));
    if StringLess(a, b) && StringLess(b, a) {
      LexTransitive(Codes(a), Codes(b), Codes(a));
    }
    LexIrreflexive(Codes(a));
    if Codes(a) == Codes(b) {
      forall i | 0 <= i < |a|
        ensures a[i] == b[i]
      {
        assert Codes(a)[i] == Codes(b)[i];
      }
      assert a == b;
    }
  }

  lemma StringTransitive(a: string, b: string, c: string)
    requires StringLess(a, b) && StringLess(b, c)
    ensures StringLess(a, c)
  {
    LexTransitive(Codes(a), Codes(b), Codes(c));
  }

  // ----- sequences without duplicates, sorted by a string key

  ghost predicate Injective<T(!new)>(key: T -> string) {
    forall a, b | key(a) == key(b) :: a == b
  }

  /** Strictly increasing keys. */
  ghost predicate SortedByKey<T>(key: T -> string, q: seq<T>) {
    forall i, j | 0 <= i < j < |q| :: StringLess(key(q[i]), key(q[j]))
  }

  /** A set has one sequence of its elements in strictly increasing key order. */
  lemma {:induction false} SortedIsCanonical<T>(key: T -> string, a: seq<T>, b: seq<T>)
    requires SortedByKey(key, a) && SortedByKey(key, b) && Elements(a) == Elements(b)
    ensures a == b
    decreases |a|
  {
    EmptyElements(b);
    if |a| > 0 {
      SameFirst(key, a, b);
      forall x
        ensures x in Elements(a[1..]) <==> x in Elements(b[1..])
      {
        TailElements(key, a, x);
        TailElements(key, b, x);
      }
      SortedIsCanonical(key, a[1..], b[1..]);
      SameHeadAndTail(a, b);
    }
  }

  lemma EmptyElements<T>(q: seq<T>)
    ensures Elements(q) == {} ==> q == []
  {
    if q != [] {
      assert q[0] in Elements(q);
    }
  }

  lemma SameHeadAndTail<T>(a: seq<T>, b: seq<T>)
    requires a != [] && b != [] && a[0] == b[0] && a[1..] == b[1..]
    ensures a == b
  {
  }

  lemma SameFirst<T>(key: T -> string, a: seq<T>, b: seq<T>)
    requires SortedByKey(key, a) && SortedByKey(key, b) && Elements(a) == Elements(b) && |a| > 0
    ensures |b| > 0 && a[0] == b[0]
  {
    assert a[0] in Elements(a) && a[0] in Elements(b);
    var j :| 0 <= j < |b| && b[j] == a[0];
    assert b[0] in Elements(b) && b[0] in Elements(a);
    var i :| 0 <= i < |a| && a[i] == b[0];
    StringOrder(key(a[0]), key(b[0]));
  }

  lemma TailElements<T>(key: T -> string, q: seq<T>, x: T)
    requires SortedByKey(key, q) && |q| > 0
    ensures x in Elements(q[1..]) <==> x in Elements(q) && x != q[0]
  {
    forall i | 1 <= i < |q|
      ensures q[i] != q[0]
    {
      StringOrder(key(q[0]), key(q[i]));
    }
    assert q == [q[0]] + q[1..];
  }

  lemma SortedHasNoDuplicates<T>(key: T -> string, q: seq<T>)
    requires SortedByKey(key, q)
    ensures NoDuplicates(q)
  {
    forall i, j | 0 <= i < j < |q|
      ensures q[i] != q[j]
    {
      StringOrder(key(q[i]), key(q[j]));
    }
  }

  /** Sorting by a string key. */
  function ByKey<T>(key: T -> string): (T, T) -> bool {
    (a, b) => !StringLess(key(b), key(a))
  }

  lemma KeyOrder<T(!new)>(key: T -> string)
    requires Injective(key)
    ensures TotalOrder(ByKey(key))
  {
    forall a, b
      ensures ByKey(key)(a, b) || ByKey(key)(b, a)
      ensures ByKey(key)(a, b) && ByKey(key)(b, a) ==> a == b
    {
      StringOrder(key(a), key(b));
    }
    forall a, b, c | ByKey(key)(a, b) && ByKey(key)(b, c)
      ensures ByKey(key)(a, c)
    {
      StringOrder(key(a), key(b));
      StringOrder(key(b), key(c));
      if StringLess(key(c), key(a)) {
        StringTransitive(key(c), key(a), key(b));
      }
    }
  }

  /** A list without repetitions is sorted strictly, with the same members. */
  lemma SortStrict<T(!new)>(key: T -> string, q: seq<T>)
    requires Injective(key) && NoDuplicates(q)
    ensures SortedByKey(key, Sort(ByKey(key), q)) && Elements(Sort(ByKey(key), q)) == Elements(q)
  {
    KeyOrder(key);
    SortSorts(ByKey(key), q);
    var r := Sort(ByKey(key), q);
    DuplicateFree(q);
    forall i, j | 0 <= i < j < |r|
      ensures StringLess(key(r[i]), key(r[j]))
    {
      assert ByKey(key)(r[i], r[j]);
      StringOrder(key(r[i]), key(r[j]));
      if key(r[i]) == key(r[j]) {
        RepeatedTwice(r, i, j);
      }
    }
    assert forall x :: x in r <==> x in multiset(r);
    assert forall x :: x in q <==> x in multiset(q);
  }

  lemma {:induction false} DuplicateFree<T>(q: seq<T>)
    requires NoDuplicates(q)
    ensures forall x :: multiset(q)[x] <= 1
    decreases |q|
  {
    if q != [] {
      DuplicateFree(q[1..]);
      assert q == [q[0]] + q[1..];
      assert q[0] !in q[1..];
    }
  }

  lemma RepeatedTwice<T>(q: seq<T>, i: nat, j: nat)
    requires i < j < |q| && q[i] == q[j]
    ensures multiset(q)[q[i]] >= 2
  {
    assert q == q[..j] + [q[j]] + q[j + 1..];
    assert q[i] in q[..j];
  }

  /** The first occurrence of every element. */
  ghost function Distinct<T>(xs: seq<T>): seq<T>
    decreases |xs|
  {
    if xs == [] then []
    else
      var earlier, last := xs[..|xs| - 1], xs[|xs| - 1];
      if last in earlier then Distinct(earlier) else Distinct(earlier) + [last]
  }

  lemma {:induction false} DistinctElements<T>(xs: seq<T>)
    ensures NoDuplicates(Distinct(xs)) && Elements(Distinct(xs)) == Elements(xs)
    decreases |xs|
  {
    if xs != [] {
      var earlier, last := xs[..|xs| - 1], xs[|xs| - 1];
      DistinctElements(earlier);
      assert xs == earlier + [last];
      AppendElements(earlier, [last]);
      AppendElements(Distinct(earlier), [last]);
      assert Elements([last]) == {last};
      assert last in Distinct(earlier) <==> last in Elements(Distinct(earlier));
      assert last in earlier <==> last in Elements(earlier);
    }
  }

  /** The elements of `xs`, once each, in key order. */
  ghost function UniqueSorted<T>(key: T -> string, xs: seq<T>): seq<T> {
    Sort(ByKey(key), Distinct(xs))
  }

  lemma UniqueSortedCharacterised<T(!new)>(key: T -> string, xs: seq<T>)
    requires Injective(key)
    ensures SortedByKey(key, UniqueSorted(key, xs))
    ensures Elements(UniqueSorted(key, xs)) == Elements(xs)
  {
    DistinctElements(xs);
    SortStrict(key, Distinct(xs));
  }

  /** Order and repetition in the input do not show in the result. */
  lemma UniqueSortedInsensitive<T(!new)>(key: T -> string, xs: seq<T>, ys: seq<T>)
    requires Injective(key)
    ensures UniqueSorted(key, xs) == UniqueSorted(key, ys) <==> Elements(xs) == Elements(ys)
  {
    UniqueSortedCharacterised(key, xs);
    UniqueSortedCharacterised(key, ys);
    if Elements(xs) == Elements(ys) {
      SortedIsCanonical(key, UniqueSorted(key, xs), UniqueSorted(key, ys));
    }
  }

  /** Sorting a part first changes nothing; with `b` empty this is idempotence. */
  lemma UniqueSortedAbsorbs<T(!new)>(key: T -> string, a: seq<T>, b: seq<T>)
    requires Injective(key)
    ensures UniqueSorted(key, UniqueSorted(key, a) + b) == UniqueSorted(key, a + b)
    ensures UniqueSorted(key, UniqueSorted(key, a)) == UniqueSorted(key, a)
  {
    UniqueSortedCharacterised(key, a);
    assert Elements(UniqueSorted(key, a) + b) == Elements(UniqueSorted(key, a)) + Elements(b);
    assert Elements(a + b) == Elements(a) + Elements(b);
    UniqueSortedInsensitive(key, UniqueSorted(key, a) + b, a + b);
    UniqueSortedInsensitive(key, UniqueSorted(key, a), a);
  }

  /** `unique_sorted`: a dictionary from key to record, then the records in key order. */
  method DeduplicateAndSort<T(==,!new)>(key: T -> string, findings: seq<T>) returns (r: seq<T>)
    requires Injective(key)
    ensures r == UniqueSorted(key, findings)
  {
    var records: map<string, T> := map[];
    for i := 0 to |findings|
      invariant forall k | k in records :: records[k] in findings[..i] && key(records[k]) == k
      invariant forall x | x in findings[..i] :: key(x) in records
    {
      assert findings[..i + 1] == findings[..i] + [findings[i]];
      records := records[key(findings[i]) := findings[i]];
    }
    assert findings[..|findings|] == findings;
    var keys := SortStrings(records.Keys);
    r := [];
    for i := 0 to |keys|
      invariant |r| == i
      invariant forall j | 0 <= j < i :: keys[j] in records && r[j] == records[keys[j]]
    {
      assert keys[i] in Elements(keys);
      r := r + [records[keys[i]]];
    }
    forall x
      ensures x in Elements(r) <==> x in Elements(findings)
    {
      if x in findings {
        assert key(x) in Elements(keys);
        var j :| 0 <= j < |keys| && keys[j] == key(x);
        assert r[j] == x;
      }
    }
    UniqueSortedCharacterised(key, findings);
    SortedIsCanonical(key, r, UniqueSorted(key, findings));
  }

  /** Python's `sorted` on a set of strings. */
  method SortStrings(s: set<string>) returns (q: seq<string>)
    ensures SortedByKey((k: string) => k, q)
    ensures Elements(q) == s
    ensures NoDuplicates(q)
  {
    var order := Enumerate(s);
    SortStrict((k: string) => k, order);
    q := Sort(ByKey((k: string) => k), order);
    SortedHasNoDuplicates((k: string) => k, q);
  }
}
