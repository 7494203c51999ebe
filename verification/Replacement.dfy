/** Replacement chains of deprecated terms: the `isReplacedBy` graph, its cycle search and
    its terminal search. */
module Replacement {
  import opened Rdf
  import opened Enumeration
  import opened Walks

  /** `replacement_graph`: each deprecated term with its replacements. */
  type ReplacementGraph = map<Term, set<Term>>

  function Get(rg: ReplacementGraph, term: Term): set<Term> {
    if term in rg then rg[term] else {}
  }

  ghost function EdgesOf(rg: ReplacementGraph): Edges<Term> {
    set k, v | k in rg && v in rg[k] :: (k, v)
  }

  lemma GetIsSucc(rg: ReplacementGraph, term: Term)
    ensures Get(rg, term) == Succ(EdgesOf(rg), term)
  {
    forall v
      ensures v in Get(rg, term) <==> v in Succ(EdgesOf(rg), term)
    {
      SuccMember(EdgesOf(rg), term, v);
    }
  }

  lemma ReachedFromSucc(e: Edges<Term>, start: Term)
    ensures forall x :: ReachedFrom(e, Succ(e, start), x) <==> ReachesPlus(e, start, x)
  {
    forall x
      ensures ReachedFrom(e, Succ(e, start), x) <==> ReachesPlus(e, start, x)
    {
      PlusIsEdgeThenReaches(e, start, x);
    }
  }

  /** `has_replacement_cycle`. */
  method HasReplacementCycle(rg: ReplacementGraph, start: Term) returns (cycle: bool)
    ensures cycle <==> OnCycle(EdgesOf(rg), start)
  {
    ghost var e := EdgesOf(rg);
    ghost var roots := Succ(e, start);
    ReachedFromSucc(e, start);
    GetIsSucc(rg, start);
    var pending := Enumerate(Get(rg, start));
    var seen: set<Term> := {};
    FrontierStart(e, roots, pending);
    while pending != []
      invariant Frontier(e, roots, seen, pending)
      invariant start !in seen
      decreases Nodes(e, roots) - seen, |pending|
    {
      FrontierWithinNodes(e, roots, seen, pending);
      ghost var before, stack := seen, pending;
      var current := pending[|pending| - 1];
      assert current in Elements(pending);
      pending := pending[..|pending| - 1];
      if current == start {
        return true;
      }
      if current in seen {
        FrontierSkip(e, roots, seen, stack);
        continue;
      }
      seen := seen + {current};
      GetIsSucc(rg, current);
      var next := Enumerate(Get(rg, current));
      FrontierExpand(e, roots, before, stack, next);
      pending := pending + next;
    }
    FrontierDone(e, roots, seen);
    return false;
  }

  /** Some chain of at least one replacement leads out of the deprecated terms. */
  ghost predicate HasTerminal(rg: ReplacementGraph, deprecated: set<Term>, term: Term) {
    exists x :: x !in deprecated && ReachesPlus(EdgesOf(rg), term, x)
  }

  /** The search for a non-deprecated terminal target. */
  method FindTerminal(rg: ReplacementGraph, deprecated: set<Term>, term: Term) returns (found: bool)
    ensures found <==> HasTerminal(rg, deprecated, term)
  {
    ghost var e := EdgesOf(rg);
    ghost var roots := Succ(e, term);
    ReachedFromSucc(e, term);
    GetIsSucc(rg, term);
    var pending := Enumerate(Get(rg, term));
    var seen: set<Term> := {};
    found := false;
    FrontierStart(e, roots, pending);
    while pending != []
      invariant Frontier(e, roots, seen, pending)
      invariant seen <= deprecated
      decreases Nodes(e, roots) - seen, |pending|
    {
      FrontierWithinNodes(e, roots, seen, pending);
      ghost var before, stack := seen, pending;
      var current := pending[|pending| - 1];
      assert current in Elements(pending);
      pending := pending[..|pending| - 1];
      if current in seen {
        FrontierSkip(e, roots, seen, stack);
        continue;
      }
      seen := seen + {current};
      if current !in deprecated {
        return true;
      }
      GetIsSucc(rg, current);
      var next := Enumerate(Get(rg, current));
      FrontierExpand(e, roots, before, stack, next);
      pending := pending + next;
    }
    FrontierDone(e, roots, seen);
  }

  // ----- what the two searches say together

  /** Replacements leave deprecated terms only, as in the graph the gate builds. */
  ghost predicate LeavesDeprecated(rg: ReplacementGraph, deprecated: set<Term>) {
    rg.Keys == deprecated
  }

  ghost predicate NoCycles(rg: ReplacementGraph, deprecated: set<Term>) {
    forall t | t in deprecated :: !OnCycle(EdgesOf(rg), t)
  }

  ghost predicate AllReplaced(rg: ReplacementGraph, deprecated: set<Term>) {
    forall t | t in deprecated :: Get(rg, t) != {}
  }

  ghost predicate TerminalMissing(rg: ReplacementGraph, deprecated: set<Term>, term: Term) {
    Get(rg, term) != {} && !HasTerminal(rg, deprecated, term)
  }

  lemma SourcesAreDeprecated(rg: ReplacementGraph, deprecated: set<Term>, p: seq<Term>)
    requires LeavesDeprecated(rg, deprecated) && Walk(EdgesOf(rg), p)
    ensures Elements(p[..|p| - 1]) <= deprecated
  {
    forall i | 0 <= i < |p| - 1
      ensures p[i] in deprecated
    {
      assert Link(EdgesOf(rg), p, i);
    }
  }

  /** Without a cycle no chain, whatever replacement is chosen at each step, takes more
      than |deprecated| steps. */
  lemma ChainsAreShort(rg: ReplacementGraph, deprecated: set<Term>, p: seq<Term>)
    requires LeavesDeprecated(rg, deprecated) && NoCycles(rg, deprecated)
    requires Walk(EdgesOf(rg), p)
    ensures |p| - 1 <= |deprecated|
  {
    if |p| > 1 {
      SourcesAreDeprecated(rg, deprecated, p);
      SliceWalk(EdgesOf(rg), p, 0, |p| - 1);
      assert p[0..|p| - 1] == p[..|p| - 1];
      AcyclicWalkFits(EdgesOf(rg), p[..|p| - 1], deprecated);
    }
  }

  /** With a replacement for every deprecated term and no cycle, a chain that stands on a
      deprecated term goes on, and every chain that cannot go on stands on a
      non-deprecated term, reached within |deprecated| steps. */
  lemma ChainsEndOutside(rg: ReplacementGraph, deprecated: set<Term>, p: seq<Term>)
    requires LeavesDeprecated(rg, deprecated) && NoCycles(rg, deprecated) && AllReplaced(rg, deprecated)
    requires Walk(EdgesOf(rg), p)
    ensures |p| - 1 <= |deprecated|
    ensures p[|p| - 1] in deprecated <==> exists next :: Walk(EdgesOf(rg), p + [next])
  {
    var e, last := EdgesOf(rg), p[|p| - 1];
    ChainsAreShort(rg, deprecated, p);
    GetIsSucc(rg, last);
    if last in deprecated {
      var next :| next in Get(rg, last);
      ExtendWalk(e, p, next);
    }
    forall next | Walk(e, p + [next])
      ensures last in deprecated
    {
      assert Link(e, p + [next], |p| - 1);
    }
  }

  lemma ExtendWalk(e: Edges<Term>, p: seq<Term>, next: Term)
    requires Walk(e, p) && next in Succ(e, p[|p| - 1])
    ensures Walk(e, p + [next])
  {
    SuccMember(e, p[|p| - 1], next);
    forall i: nat | i + 1 < |p + [next]|
      ensures Link(e, p + [next], i)
    {
      if i + 1 < |p| {
        assert Link(e, p, i);
      }
    }
  }

  /** Following any chain on from `p` leaves the deprecated terms, or meets a deprecated
      term that lies on a cycle or has no replacement. */
  lemma {:induction false} ChainLeavesOrFails(rg: ReplacementGraph, deprecated: set<Term>, p: seq<Term>)
    returns (x: Term)
    requires LeavesDeprecated(rg, deprecated) && Walk(EdgesOf(rg), p) && |p| >= 2
    ensures ReachesPlus(EdgesOf(rg), p[0], x)
    ensures x !in deprecated || Get(rg, x) == {} || OnCycle(EdgesOf(rg), x)
    decreases |deprecated| + 1 - |p|
  {
    var e, last := EdgesOf(rg), p[|p| - 1];
    assert WalkBetween(e, p, p[0], last);
    if last !in deprecated || Get(rg, last) == {} {
      return last;
    }
    SourcesAreDeprecated(rg, deprecated, p);
    assert p == p[..|p| - 1] + [last];
    if NoDuplicates(p) {
      DistinctFits(p, deprecated);
      GetIsSucc(rg, last);
      var next :| next in Get(rg, last);
      ExtendWalk(e, p, next);
      x := ChainLeavesOrFails(rg, deprecated, p + [next]);
    } else {
      var i, j :| 0 <= i < j < |p| && p[i] == p[j];
      RepeatIsCycle(e, p, i, j);
      x := p[i];
      if i > 0 {
        SliceWalk(e, p, 0, i + 1);
        assert WalkBetween(e, p[0..i + 1], p[0], x);
      }
    }
  }

  /** A term has replacements that all stay deprecated only where a deprecated term with a
      cycle, or without a replacement, can be reached. */
  lemma TerminalMissingHasCause(rg: ReplacementGraph, deprecated: set<Term>, term: Term)
    requires LeavesDeprecated(rg, deprecated) && TerminalMissing(rg, deprecated, term)
    ensures exists x :: x in deprecated && ReachesPlus(EdgesOf(rg), term, x)
                     && (Get(rg, x) == {} || OnCycle(EdgesOf(rg), x))
  {
    GetIsSucc(rg, term);
    var next :| next in Get(rg, term);
    assert Walk(EdgesOf(rg), [term]);
    ExtendWalk(EdgesOf(rg), [term], next);
    var x := ChainLeavesOrFails(rg, deprecated, [term] + [next]);
  }

  /** A graph that passes the replacement and the cycle check has a terminal for every
      deprecated term: the terminal check never fails alone. */
  lemma TerminalNeverMissingAlone(rg: ReplacementGraph, deprecated: set<Term>)
    requires LeavesDeprecated(rg, deprecated) && NoCycles(rg, deprecated) && AllReplaced(rg, deprecated)
    ensures forall t | t in deprecated :: HasTerminal(rg, deprecated, t)
  {
    forall t | t in deprecated
      ensures HasTerminal(rg, deprecated, t)
    {
      if !HasTerminal(rg, deprecated, t) {
        TerminalMissingHasCause(rg, deprecated, t);
      }
    }
  }

  /** A term that replaces itself is on a cycle. */
  lemma SelfReplacementIsCycle(rg: ReplacementGraph, term: Term)
    requires term in Get(rg, term)
    ensures OnCycle(EdgesOf(rg), term)
  {
    GetIsSucc(rg, term);
    SuccMember(EdgesOf(rg), term, term);
    EdgeReaches(EdgesOf(rg), term, term);
  }
}
