/** The canonical record of one validation result: what `result_evidence` hashes. */
module ResultRecord {
  import opened Wrappers
  import opened Rdf
  import opened Enumeration
  import opened Sorting
  import opened Ordering
  import opened PosixPath
  import opened ResultPath
  import opened PathAnswers
  import opened ShapeRequirements

  const SH_SOURCE_SHAPE := IRI(SH_NS + "sourceShape")
  const SH_FOCUS_NODE := IRI(SH_NS + "focusNode")
  const SH_RESULT_PATH := IRI(SH_NS + "resultPath")
  const SH_RESULT_SEVERITY := IRI(SH_NS + "resultSeverity")
  const SH_SOURCE_CONSTRAINT_COMPONENT := IRI(SH_NS + "sourceConstraintComponent")
  const SH_VALUE := IRI(SH_NS + "value")

  /** `_value_descriptor`. */
  datatype ValueDescriptor =
    | LiteralValue(datatypeIri: Option<string>, language: Option<string>)
    | IriValue
    | BlankNodeValue

  function DescribeValue(t: Term): ValueDescriptor {
    match t
    case Literal(_, datatypeIri, language, _) =>
      LiteralValue(if Truthy(datatypeIri) then datatypeIri else None,
                   if Truthy(language) then Some(Lower(language.value)) else None)
    case IRI(_) => IriValue
    case BNode(_) => BlankNodeValue
  }

  /** `_iri_or_kind`. */
  function IriOrKind(t: Term): string {
    match t
    case IRI(value) => value
    case BNode(_) => "[BNode]"
    case Literal(_, _, _, _) => "[Literal]"
  }

  datatype Record = Record(
    focusTypes: seq<string>, paths: seq<Descriptor>, requirementIds: seq<string>,
    severities: seq<string>, components: seq<string>, values: seq<ValueDescriptor>)

  /** The JSON texts that lists of descriptors are sorted by; different descriptors have
      different texts. */
  datatype Json = Json(path: Descriptor -> string, value: ValueDescriptor -> string)

  ghost predicate Faithful(json: Json) {
    Injective(json.path) && Injective(json.value)
  }

  function FocusTypes(report: Graph, data: Graph, n: Term): set<string> {
    set focus, t | focus in Objects(report, n, SH_FOCUS_NODE) && t in Objects(data, focus, RDF_TYPE) :: IriOrKind(t)
  }

  /** The requirement identifiers of one result, inherited by its source shapes. */
  ghost function ResultIds(report: Graph, shapes: Graph, n: Term): set<string> {
    set shape, id | shape in Objects(report, n, SH_SOURCE_SHAPE) && id in InheritedIds(shapes, shape) :: id
  }

  // ----- lists with one item for each of a set of terms

  ghost function Holders<D>(items: map<Term, D>, d: D): set<Term> {
    set t | t in items && items[t] == d
  }

  /** The list has one item for each term, whatever the order. */
  ghost predicate Lists<D(!new)>(items: map<Term, D>, list: seq<D>) {
    forall d :: multiset(list)[d] == |Holders(items, d)|
  }

  /** Each term has one of its possible items in the list. */
  ghost predicate Listed<D(!new)>(terms: set<Term>, item: (Term, D) -> bool, list: seq<D>) {
    exists items: map<Term, D> :: ItemsFor(items, terms, item) && Lists(items, list)
  }

  ghost predicate ItemsFor<D>(items: map<Term, D>, terms: set<Term>, item: (Term, D) -> bool) {
    items.Keys == terms && forall t | t in terms :: item(t, items[t])
  }

  ghost predicate SortedList<D(!new)>(key: D -> string, terms: set<Term>, item: (Term, D) -> bool, list: seq<D>) {
    InOrder(ByKey(key), list) && Listed(terms, item, list)
  }

  ghost predicate SortedSet(list: seq<string>, strings: set<string>) {
    SortedByKey((k: string) => k, list) && Elements(list) == strings
  }

  ghost function IsOf<D(!new)>(f: Term -> D): (Term, D) -> bool {
    (t, d) => d == f(t)
  }

  ghost function IsPathOf(gs: seq<Graph>): (Term, Descriptor) -> bool {
    (t, d) => Describes(gs, t, {}, d)
  }

  /** `record` is a canonical record of the result `n`. Only the choice among several objects
      of one path operator is left open. */
  ghost predicate IsRecord(report: Graph, shapes: Graph, data: Graph, json: Json, n: Term, record: Record) {
    && SortedSet(record.focusTypes, FocusTypes(report, data, n))
    && SortedSet(record.requirementIds, ResultIds(report, shapes, n))
    && SortedList(json.path, Objects(report, n, SH_RESULT_PATH), IsPathOf([report, shapes]), record.paths)
    && SortedList(k => k, Objects(report, n, SH_RESULT_SEVERITY), IsOf(IriOrKind), record.severities)
    && SortedList(k => k, Objects(report, n, SH_SOURCE_CONSTRAINT_COMPONENT), IsOf(IriOrKind), record.components)
    && SortedList(json.value, Objects(report, n, SH_VALUE), IsOf(DescribeValue), record.values)
  }

  lemma NoItems<D(!new)>()
    ensures Lists<D>(map[], [])
  {
  }

  lemma OneMoreItem<D(!new)>(items: map<Term, D>, list: seq<D>, t: Term, d: D)
    requires Lists(items, list) && t !in items
    ensures Lists(items[t := d], list + [d])
  {
    forall x
      ensures multiset(list + [d])[x] == |Holders(items[t := d], x)|
    {
      OneMoreHolder(items, t, d, x);
      assert multiset(list + [d]) == multiset(list) + multiset{d};
      assert multiset(list)[x] == |Holders(items, x)|;
    }
  }

  lemma OneMoreHolder<D>(items: map<Term, D>, t: Term, d: D, x: D)
    requires t !in items
    ensures |Holders(items[t := d], x)| == |Holders(items, x)| + if x == d then 1 else 0
  {
    if x == d {
      assert Holders(items[t := d], x) == Holders(items, x) + {t};
      assert t !in Holders(items, x);
    } else {
      assert Holders(items[t := d], x) == Holders(items, x);
    }
  }

  lemma SortedListed<D(!new)>(key: D -> string, terms: set<Term>, item: (Term, D) -> bool, list: seq<D>)
    requires Injective(key) && Listed(terms, item, list)
    ensures SortedList(key, terms, item, Sort(ByKey(key), list))
  {
    KeyOrder(key);
    SortSorts(ByKey(key), list);
    var items: map<Term, D> :| ItemsFor(items, terms, item) && Lists(items, list);
    SameContentsListed(items, list, Sort(ByKey(key), list));
  }

  lemma SameContentsListed<D(!new)>(items: map<Term, D>, a: seq<D>, b: seq<D>)
    requires Lists(items, a)
    ensures Lists(items, b) <==> multiset(a) == multiset(b)
  {
    if Lists(items, b) {
      forall d
        ensures multiset(a)[d] == multiset(b)[d]
      {
        assert multiset(a)[d] == |Holders(items, d)|;
      }
    }
  }

  /** `sorted(f(t) for t in terms)`. */
  method SortedItems<D(!new)>(key: D -> string, terms: set<Term>, f: Term -> D) returns (list: seq<D>)
    requires Injective(key)
    ensures SortedList(key, terms, IsOf(f), list)
  {
    list := [];
    var order := Enumerate(terms);
    ghost var items: map<Term, D> := map[];
    NoItems<D>();
    for i := 0 to |order|
      invariant ItemsFor(items, Elements(order[..i]), IsOf(f)) && Lists(items, list)
    {
      assert order[..i + 1] == order[..i] + [order[i]];
      OneMoreItem(items, list, order[i], f(order[i]));
      list := list + [f(order[i])];
      items := items[order[i] := f(order[i])];
    }
    assert order[..|order|] == order;
    SortedListed(key, terms, IsOf(f), list);
    list := Sort(ByKey(key), list);
  }

  method SortedPaths(key: Descriptor -> string, gs: seq<Graph>, terms: set<Term>) returns (list: seq<Descriptor>)
    requires Injective(key)
    ensures SortedList(key, terms, IsPathOf(gs), list)
  {
    list := [];
    var order := Enumerate(terms);
    ghost var items: map<Term, Descriptor> := map[];
    NoItems<Descriptor>();
    for i := 0 to |order|
      invariant ItemsFor(items, Elements(order[..i]), IsPathOf(gs)) && Lists(items, list)
    {
      assert order[..i + 1] == order[..i] + [order[i]];
      var d := NormalizeResultPath(order[i], gs, {});
      OneMoreItem(items, list, order[i], d);
      list := list + [d];
      items := items[order[i] := d];
    }
    assert order[..|order|] == order;
    SortedListed(key, terms, IsPathOf(gs), list);
    list := Sort(ByKey(key), list);
  }

  method BuildRecord(report: Graph, shapes: Graph, data: Graph, json: Json, n: Term, ids: set<string>)
    returns (record: Record)
    requires Faithful(json) && ids == ResultIds(report, shapes, n)
    ensures IsRecord(report, shapes, data, json, n, record)
  {
    var focusTypes := SortStrings(FocusTypes(report, data, n));
    var paths := SortedPaths(json.path, [report, shapes], Objects(report, n, SH_RESULT_PATH));
    var values := SortedItems(json.value, Objects(report, n, SH_VALUE), DescribeValue);
    var requirementIds := SortStrings(ids);
    var severities := SortedItems((k: string) => k, Objects(report, n, SH_RESULT_SEVERITY), IriOrKind);
    var components := SortedItems((k: string) => k, Objects(report, n, SH_SOURCE_CONSTRAINT_COMPONENT), IriOrKind);
    return Record(focusTypes, paths, requirementIds, severities, components, values);
  }

  // ----- one record for each result

  /** The decoder has one answer for every path of the result. */
  ghost predicate PathsDetermined(report: Graph, shapes: Graph, n: Term) {
    forall t | t in Objects(report, n, SH_RESULT_PATH) :: AnswersAgree([report, shapes], t, {})
  }

  ghost predicate Determined<D(!new)>(terms: set<Term>, item: (Term, D) -> bool) {
    forall t, d, d' | t in terms && item(t, d) && item(t, d') :: d == d'
  }

  /** Sorting makes the list canonical. */
  lemma SortedListIsCanonical<D(!new)>(key: D -> string, terms: set<Term>, item: (Term, D) -> bool, a: seq<D>,
        b: seq<D>)
    requires Injective(key) && Determined(terms, item)
    requires SortedList(key, terms, item, a) && SortedList(key, terms, item, b)
    ensures a == b
  {
    var items: map<Term, D> :| ItemsFor(items, terms, item) && Lists(items, a);
    var items': map<Term, D> :| ItemsFor(items', terms, item) && Lists(items', b);
    ItemsDetermined(terms, item, items, items');
    SameContentsListed(items, a, b);
    KeyOrder(key);
    SortedByContents(ByKey(key), a, b);
  }

  lemma ItemsDetermined<D(!new)>(terms: set<Term>, item: (Term, D) -> bool, items: map<Term, D>, items': map<Term, D>)
    requires Determined(terms, item) && ItemsFor(items, terms, item) && ItemsFor(items', terms, item)
    ensures items == items'
  {
  }

  lemma SortedSetIsCanonical(a: seq<string>, b: seq<string>, strings: set<string>)
    requires SortedSet(a, strings) && SortedSet(b, strings)
    ensures a == b
  {
    SortedIsCanonical((k: string) => k, a, b);
  }

  /** Two records of one result agree: no iteration order shows in it. */
  lemma RecordIsCanonical(report: Graph, shapes: Graph, data: Graph, json: Json, n: Term, a: Record, b: Record)
    requires Faithful(json) && PathsDetermined(report, shapes, n)
    requires IsRecord(report, shapes, data, json, n, a) && IsRecord(report, shapes, data, json, n, b)
    ensures a == b
  {
    SortedSetIsCanonical(a.focusTypes, b.focusTypes, FocusTypes(report, data, n));
    SortedSetIsCanonical(a.requirementIds, b.requirementIds, ResultIds(report, shapes, n));
    SortedListIsCanonical(json.path, Objects(report, n, SH_RESULT_PATH), IsPathOf([report, shapes]), a.paths, b.paths);
    SortedListIsCanonical(k => k, Objects(report, n, SH_RESULT_SEVERITY), IsOf(IriOrKind), a.severities, b.severities);
    SortedListIsCanonical(k => k, Objects(report, n, SH_SOURCE_CONSTRAINT_COMPONENT), IsOf(IriOrKind), a.components,
      b.components);
    SortedListIsCanonical(json.value, Objects(report, n, SH_VALUE), IsOf(DescribeValue), a.values, b.values);
  }
}
