/** The dependency graph: every dependency name (a tracked property or a
    cached method) maps to the cached methods that listed it, in the order
    they were registered. Also holds the reachability specification that
    the invalidation walks are proved against. */
module DependencyGraph {

  type Graph = map<string, seq<string>>

  /** The direct dependents of `a`; a name nobody depends on has none. */
  function Succs(g: Graph, a: string): seq<string> {
    if a in g then g[a] else []
  }

  /** `b` must be recomputed when `a` changes. */
  predicate Edge(g: Graph, a: string, b: string) {
    b in Succs(g, a)
  }

  /** Every name that occurs as a dependent somewhere in the graph. */
  function Targets(g: Graph): (t: set<string>)
    ensures forall a, b :: Edge(g, a, b) ==> b in t
    ensures forall b :: b in t ==> exists a :: a in g && Edge(g, a, b)
  {
    set a, b | a in g && b in g[a] :: b
  }

  /** Number of occurrences of `k` in `xs`. */
  function Count(xs: seq<string>, k: string): nat {
    if xs == [] then 0 else (if xs[0] == k then 1 else 0) + Count(xs[1..], k)
  }

  /** `n` copies of `m`. */
  function Repeat(m: string, n: nat): (r: seq<string>)
    ensures |r| == n
    ensures forall i :: 0 <= i < n ==> r[i] == m
  {
    if n == 0 then [] else [m] + Repeat(m, n - 1)
  }

  lemma {:induction false} CountSnoc(xs: seq<string>, x: string, k: string)
    ensures Count(xs + [x], k) == Count(xs, k) + (if x == k then 1 else 0)
  {
    if xs != [] {
      assert (xs + [x])[1..] == xs[1..] + [x];
      CountSnoc(xs[1..], x, k);
    }
  }

  lemma {:induction false} RepeatSnoc(m: string, n: nat)
    ensures Repeat(m, n + 1) == Repeat(m, n) + [m]
  {
  }

  /** Appends `m` to the dependents of `d`, creating the entry if absent. */
  function AddDependent(g: Graph, d: string, m: string): (r: Graph)
    ensures forall k :: k in r <==> k in g || k == d
    ensures Succs(r, d) == Succs(g, d) + [m]
    ensures forall k :: k != d ==> Succs(r, k) == Succs(g, k)
  {
    if d !in g then g[d := [m]] else g[d := g[d] + [m]]
  }

  /** Registers method `m` as a dependent of every name in `deps`, in order:
      each key gains one trailing copy of `m` per occurrence in `deps`, keys
      are created exactly for the names of `deps`, and nothing else changes. */
  function AddDependents(g: Graph, deps: seq<string>, m: string): (r: Graph)
    ensures forall k :: k in r <==> k in g || k in deps
    ensures forall k :: Succs(r, k) == Succs(g, k) + Repeat(m, Count(deps, k))
    decreases |deps|
  {
    if deps == [] then g
    else
      var g1 := AddDependent(g, deps[0], m);
      var r := AddDependents(g1, deps[1..], m);
      AddDependentsStep(g, g1, r, deps, m);
      r
  }

  lemma AddDependentsStep(g: Graph, g1: Graph, r: Graph, deps: seq<string>, m: string)
    requires deps != []
    requires forall k :: k in g1 <==> k in g || k == deps[0]
    requires Succs(g1, deps[0]) == Succs(g, deps[0]) + [m]
    requires forall k :: k != deps[0] ==> Succs(g1, k) == Succs(g, k)
    requires forall k :: k in r <==> k in g1 || k in deps[1..]
    requires forall k :: Succs(r, k) == Succs(g1, k) + Repeat(m, Count(deps[1..], k))
    ensures forall k :: k in r <==> k in g || k in deps
    ensures forall k :: Succs(r, k) == Succs(g, k) + Repeat(m, Count(deps, k))
  {
    assert deps == [deps[0]] + deps[1..];
    forall k ensures Succs(r, k) == Succs(g, k) + Repeat(m, Count(deps, k)) {
      AddDependentsKey(Succs(g, k), Succs(g1, k), Succs(r, k), deps, m, k);
    }
  }

  /** The lists of one key `k` across one step of `AddDependents`. */
  lemma AddDependentsKey(before: seq<string>, mid: seq<string>, after: seq<string>,
                         deps: seq<string>, m: string, k: string)
    requires deps != []
    requires mid == before + (if k == deps[0] then [m] else [])
    requires after == mid + Repeat(m, Count(deps[1..], k))
    ensures after == before + Repeat(m, Count(deps, k))
  {
    var c := Count(deps[1..], k);
    if k == deps[0] {
      assert Repeat(m, 1 + c) == [m] + Repeat(m, c);
      assert after == before + ([m] + Repeat(m, c));
    } else {
      assert mid == before;
    }
  }

  /* ---------------- Reachability ---------------- */

  /** A path of one or more names, each consecutive pair an edge. */
  ghost predicate IsPath(g: Graph, path: seq<string>) {
    |path| >= 1 && forall i :: 0 <= i < |path| - 1 ==> Edge(g, path[i], path[i + 1])
  }

  /** `b` is reachable from `a` by one or more edges. */
  ghost predicate Reaches(g: Graph, a: string, b: string) {
    exists path :: IsPath(g, path) && |path| >= 2 && path[0] == a && path[|path| - 1] == b
  }

  ghost predicate OnCycle(g: Graph, a: string) {
    Reaches(g, a, a)
  }

  /** No edge leaves `s`. */
  ghost predicate Closed(g: Graph, s: set<string>) {
    forall a, b :: a in s && Edge(g, a, b) ==> b in s
  }

  lemma ReachesEndsInTargets(g: Graph, a: string)
    ensures forall b :: Reaches(g, a, b) ==> b in Targets(g)
  {
    forall b | Reaches(g, a, b) ensures b in Targets(g) {
      var path :| IsPath(g, path) && |path| >= 2 && path[0] == a && path[|path| - 1] == b;
      assert Edge(g, path[|path| - 2], path[|path| - 1]);
    }
  }

  /** The names reachable from `a` by one or more edges. */
  ghost function Reach(g: Graph, a: string): (r: set<string>)
    ensures forall b :: b in r <==> Reaches(g, a, b)
  {
    ReachesEndsInTargets(g, a);
    set b | b in Targets(g) && Reaches(g, a, b)
  }

  lemma EdgeReaches(g: Graph, a: string, b: string)
    requires Edge(g, a, b)
    ensures Reaches(g, a, b)
  {
    assert IsPath(g, [a, b]);
  }

  lemma ReachesExtend(g: Graph, a: string, b: string, c: string)
    requires Reaches(g, a, b) && Edge(g, b, c)
    ensures Reaches(g, a, c)
  {
    var path :| IsPath(g, path) && |path| >= 2 && path[0] == a && path[|path| - 1] == b;
    var path' := path + [c];
    assert IsPath(g, path');
  }

  lemma ReachesPrepend(g: Graph, a: string, b: string, c: string)
    requires Edge(g, a, b) && Reaches(g, b, c)
    ensures Reaches(g, a, c)
  {
    var path :| IsPath(g, path) && |path| >= 2 && path[0] == b && path[|path| - 1] == c;
    var path' := [a] + path;
    assert IsPath(g, path');
  }

  /** Every walk of one or more edges starts with an edge. */
  lemma ReachesFirstStep(g: Graph, a: string, b: string) returns (c: string)
    requires Reaches(g, a, b)
    ensures Edge(g, a, c) && (c == b || Reaches(g, c, b))
  {
    var path :| IsPath(g, path) && |path| >= 2 && path[0] == a && path[|path| - 1] == b;
    c := path[1];
    assert Edge(g, path[0], path[1]);
    if |path| > 2 {
      assert IsPath(g, path[1..]);
    }
  }

  lemma {:induction false} ReachesTrans(g: Graph, a: string, b: string, c: string)
    requires Reaches(g, a, b) && Reaches(g, b, c)
    ensures Reaches(g, a, c)
  {
    var p1 :| IsPath(g, p1) && |p1| >= 2 && p1[0] == a && p1[|p1| - 1] == b;
    var p2 :| IsPath(g, p2) && |p2| >= 2 && p2[0] == b && p2[|p2| - 1] == c;
    var p := p1 + p2[1..];
    assert IsPath(g, p) by {
      forall i | 0 <= i < |p| - 1 ensures Edge(g, p[i], p[i + 1]) {
        if i < |p1| - 1 {
          assert Edge(g, p1[i], p1[i + 1]);
        } else {
          assert Edge(g, p2[i - |p1| + 1], p2[i - |p1| + 2]);
        }
      }
    }
    assert p[|p| - 1] == c;
  }

  /** The reachable set is closed under edges. */
  lemma ReachClosed(g: Graph, a: string)
    ensures Closed(g, Reach(g, a))
  {
    forall x, y | x in Reach(g, a) && Edge(g, x, y) ensures y in Reach(g, a) {
      ReachesExtend(g, a, x, y);
    }
  }

  lemma {:induction false} PathStaysInClosed(g: Graph, path: seq<string>, s: set<string>, i: nat)
    requires IsPath(g, path) && Closed(g, s)
    requires |path| >= 2 && path[1] in s
    requires 1 <= i < |path|
    ensures path[i] in s
    decreases i
  {
    if i > 1 {
      PathStaysInClosed(g, path, s, i - 1);
      assert Edge(g, path[i - 1], path[i]);
    }
  }

  /** The reachable set is the least closed set holding the direct
      dependents of `a`. */
  lemma ReachLeast(g: Graph, a: string, s: set<string>)
    requires Closed(g, s)
    requires forall b :: Edge(g, a, b) ==> b in s
    ensures Reach(g, a) <= s
  {
    forall b | b in Reach(g, a) ensures b in s {
      var path :| IsPath(g, path) && |path| >= 2 && path[0] == a && path[|path| - 1] == b;
      assert Edge(g, path[0], path[1]);
      PathStaysInClosed(g, path, s, |path| - 1);
    }
  }
}
