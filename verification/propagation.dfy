/** Dirty-state propagation: starting from a changed name, every cached
    method reachable through the dependency graph is marked dirty. The walk
    keeps a visited set, so it terminates on every graph, cycles included. */
module Propagation {
  import opened DependencyGraph

  /** Every edge out of `visited` lands in `visited` or is still queued. */
  ghost predicate Frontier(g: Graph, visited: set<string>, work: seq<string>) {
    forall v, s :: v in visited && Edge(g, v, s) ==> s in visited || s in work
  }

  lemma CardinalityShrinks(t: set<string>, visited: set<string>, x: string)
    requires x in t && x !in visited
    ensures |t - (visited + {x})| < |t - visited|
  {
    assert t - visited == (t - (visited + {x})) + {x};
  }

  /** One step of the worklist keeps its invariants: work inside the targets,
      and every edge out of the visited names covered. */
  lemma CloseStep(g: Graph, work: seq<string>, visited: set<string>)
    requires work != []
    requires forall x :: x in work ==> x in Targets(g)
    ensures work[0] in Targets(g)
    ensures forall y :: y in work[1..] ==> y in Targets(g)
    ensures forall y :: y in Succs(g, work[0]) + work[1..] ==> y in Targets(g)
    ensures work[0] in visited && Frontier(g, visited, work) ==> Frontier(g, visited, work[1..])
    ensures Frontier(g, visited, work) ==> Frontier(g, visited + {work[0]}, Succs(g, work[0]) + work[1..])
  {
    assert work == [work[0]] + work[1..];
    forall y | y in Succs(g, work[0]) ensures y in Targets(g) {
      assert Edge(g, work[0], y);
    }
  }

  /** Depth-first worklist closure: pops a name, and if it was not visited
      yet, visits it and pushes its direct dependents. */
  function Close(g: Graph, work: seq<string>, visited: set<string>): (r: set<string>)
    requires visited <= Targets(g)
    requires forall x :: x in work ==> x in Targets(g)
    ensures visited <= r <= Targets(g)
    ensures forall x :: x in work ==> x in r
    ensures Frontier(g, visited, work) ==> Closed(g, r)
    decreases |Targets(g) - visited|, |work|
  {
    if work == [] then visited
    else
      var x := work[0];
      CloseStep(g, work, visited);
      if x in visited then
        Close(g, work[1..], visited)
      else
        CardinalityShrinks(Targets(g), visited, x);
        Close(g, Succs(g, x) + work[1..], visited + {x})
  }

  /** One unfolding of `Close` on a non-empty worklist. */
  lemma CloseUnfold(g: Graph, work: seq<string>, visited: set<string>)
    requires visited <= Targets(g)
    requires forall x :: x in work ==> x in Targets(g)
    requires work != []
    ensures CloseStepFacts(g, work, visited)
  {
    CloseStep(g, work, visited);
  }

  /** What `CloseUnfold` provides: the recursive call `Close` makes is
      well-defined, and `Close` equals it. */
  ghost predicate CloseStepFacts(g: Graph, work: seq<string>, visited: set<string>)
    requires visited <= Targets(g)
    requires forall x :: x in work ==> x in Targets(g)
    requires work != []
  {
    var x := work[0];
    && x in Targets(g)
    && (forall y :: y in work[1..] ==> y in Targets(g))
    && (forall y :: y in Succs(g, x) + work[1..] ==> y in Targets(g))
    && (x in visited ==> Close(g, work, visited) == Close(g, work[1..], visited))
    && (x !in visited ==> Close(g, work, visited) == Close(g, Succs(g, x) + work[1..], visited + {x}))
  }

  /** Everything `Close` adds stays inside any closed set holding its input. */
  lemma {:induction false} CloseWithin(g: Graph, work: seq<string>, visited: set<string>, s: set<string>)
    requires visited <= Targets(g)
    requires forall x :: x in work ==> x in Targets(g)
    requires visited <= s && (forall x :: x in work ==> x in s) && Closed(g, s)
    ensures Close(g, work, visited) <= s
    decreases |Targets(g) - visited|, |work|
  {
    if work != [] {
      var x := work[0];
      CloseUnfold(g, work, visited);
      ClosedStep(g, work, s);
      if x in visited {
        CloseWithin(g, work[1..], visited, s);
      } else {
        CardinalityShrinks(Targets(g), visited, x);
        CloseWithin(g, Succs(g, x) + work[1..], visited + {x}, s);
      }
    }
  }

  /** Pushing the dependents of the first work item stays inside a closed set
      holding the work. */
  lemma ClosedStep(g: Graph, work: seq<string>, s: set<string>)
    requires work != [] && Closed(g, s) && (forall x :: x in work ==> x in s)
    ensures forall y :: y in work[1..] ==> y in s
    ensures forall y :: y in Succs(g, work[0]) + work[1..] ==> y in s
  {
    assert work == [work[0]] + work[1..];
    forall y | y in Succs(g, work[0]) ensures y in s {
      assert Edge(g, work[0], y);
    }
  }

  /** Started from the direct dependents of `p`, the closure is exactly the
      set of names reachable from `p` by one or more edges. */
  lemma CloseIsReach(g: Graph, p: string)
    ensures Close(g, Succs(g, p), {}) == Reach(g, p)
  {
    var c := Close(g, Succs(g, p), {});
    ReachLeast(g, p, c);
    ReachClosed(g, p);
    forall x | x in Succs(g, p) ensures x in Reach(g, p) {
      EdgeReaches(g, p, x);
    }
    CloseWithin(g, Succs(g, p), {}, Reach(g, p));
  }

  /** Marks dirty every cached method reachable from the changed name `p`:
      the result is the old dirty set plus exactly the names reachable from
      `p`; `p` itself is marked only when it lies on a cycle. */
  function Propagate(g: Graph, p: string, dirty: set<string>): (r: set<string>)
    ensures r == dirty + Reach(g, p)
    ensures forall n :: n in r <==> n in dirty || Reaches(g, p, n)
    ensures p in r <==> p in dirty || OnCycle(g, p)
  {
    CloseIsReach(g, p);
    dirty + Close(g, Succs(g, p), {})
  }

  /** Marking is idempotent: propagating twice from the same name adds
      nothing the first propagation did not. */
  lemma PropagateIdempotent(g: Graph, p: string, dirty: set<string>)
    ensures Propagate(g, p, Propagate(g, p, dirty)) == Propagate(g, p, dirty)
  {
  }
}
