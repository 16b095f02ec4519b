/** The source's propagation as written: plain depth-first recursion over
    the dependents of a name, marking each dependent and then recursing into
    it, with no visited set (src/index.ts setDirtyStates, src/decorators.ts
    invalidateCaches). `fuel` is the call-stack depth still available:
    `None` means the recursion did not finish within it.

    Proved here: the recursion finishes for some depth exactly when no
    cycle is reachable from the start, and whenever it finishes it has
    marked exactly the names `Propagation.Propagate` marks. */
module RecursiveWalk {
  import opened JsValues
  import opened DependencyGraph
  import Propagation

  /** Names reachable by one or more edges from some element of `names`,
      together with those elements themselves. */
  ghost function ReachEach(g: Graph, names: seq<string>): set<string>
    decreases |names|
  {
    if names == [] then {} else {names[0]} + Reach(g, names[0]) + ReachEach(g, names[1..])
  }

  lemma {:induction false} ReachEachMembers(g: Graph, names: seq<string>, b: string)
    ensures b in ReachEach(g, names) <==>
            exists i :: 0 <= i < |names| && (names[i] == b || Reaches(g, names[i], b))
    decreases |names|
  {
    if names != [] {
      ReachEachMembers(g, names[1..], b);
      if b in ReachEach(g, names[1..]) {
        var i :| 0 <= i < |names[1..]| && (names[1..][i] == b || Reaches(g, names[1..][i], b));
        assert names[i + 1] == names[1..][i];
      }
      if exists i :: 0 <= i < |names| && (names[i] == b || Reaches(g, names[i], b)) {
        var i :| 0 <= i < |names| && (names[i] == b || Reaches(g, names[i], b));
        if i > 0 {
          assert names[1..][i - 1] == names[i];
        }
      }
    }
  }

  /** What a name reaches is its dependents and what they reach. */
  lemma ReachEachSuccs(g: Graph, a: string)
    ensures ReachEach(g, Succs(g, a)) == Reach(g, a)
  {
    var names := Succs(g, a);
    forall b ensures b in ReachEach(g, names) <==> b in Reach(g, a) {
      ReachEachMembers(g, names, b);
      if b in Reach(g, a) {
        var c := ReachesFirstStep(g, a, b);
        var i :| 0 <= i < |names| && names[i] == c;
      }
      if b in ReachEach(g, names) {
        var i :| 0 <= i < |names| && (names[i] == b || Reaches(g, names[i], b));
        assert Edge(g, a, names[i]);
        EdgeReaches(g, a, names[i]);
        if names[i] != b {
          ReachesTrans(g, a, names[i], b);
        }
      }
    }
  }

  /** One call of the recursive propagation for `name`. It only ever adds
      to the dirty set; `WalkFromMarks` says exactly what it adds. */
  function WalkFrom(g: Graph, name: string, dirty: set<string>, fuel: nat): (r: Option<set<string>>)
    ensures r.Some? ==> dirty <= r.value
    decreases fuel, 0
  {
    if fuel == 0 then None
    else WalkEach(g, Succs(g, name), dirty, fuel - 1)
  }

  /** The loop over the dependents of one name: mark each, then recurse.
      It only ever adds to the dirty set, the names looped over included. */
  function WalkEach(g: Graph, names: seq<string>, dirty: set<string>, fuel: nat): (r: Option<set<string>>)
    ensures r.Some? ==> dirty <= r.value
    ensures r.Some? ==> forall i :: 0 <= i < |names| ==> names[i] in r.value
    decreases fuel, 1, |names|
  {
    if names == [] then Some(dirty)
    else
      match WalkFrom(g, names[0], dirty + {names[0]}, fuel)
      case None => None
      case Some(d) => WalkEach(g, names[1..], d, fuel)
  }

  /** When the recursion from `name` returns, the dirty set has grown by
      exactly the names reachable from `name`. */
  lemma {:induction false} WalkFromMarks(g: Graph, name: string, dirty: set<string>, fuel: nat)
    ensures WalkFrom(g, name, dirty, fuel).Some? ==> WalkFrom(g, name, dirty, fuel).value == dirty + Reach(g, name)
    decreases fuel, 0
  {
    if fuel > 0 {
      var f: nat := fuel - 1;
      WalkFromUnfold(g, name, dirty, fuel, f);
      ReachEachSuccs(g, name);
      WalkEachMarks(g, Succs(g, name), dirty, f);
    }
  }

  /** When the loop over `names` returns, the dirty set has grown by exactly
      those names and everything each of them reaches. */
  lemma {:induction false} WalkEachMarks(g: Graph, names: seq<string>, dirty: set<string>, fuel: nat)
    ensures WalkEach(g, names, dirty, fuel).Some? ==> WalkEach(g, names, dirty, fuel).value == dirty + ReachEach(g, names)
    decreases fuel, 1, |names|
  {
    if names != [] {
      var x := names[0];
      WalkFromMarks(g, x, dirty + {x}, fuel);
      match WalkFrom(g, x, dirty + {x}, fuel)
      case None =>
      case Some(d) =>
        WalkEachMarks(g, names[1..], d, fuel);
    }
  }

  /** No cycle can be reached from `x`, `x` included. */
  ghost predicate CycleFreeFrom(g: Graph, x: string) {
    forall y :: (y == x || Reaches(g, x, y)) ==> !OnCycle(g, y)
  }

  /** If a cycle can be reached from `x`, the recursion never finishes,
      however deep the stack. */
  lemma {:induction false} WalkDiverges(g: Graph, x: string, y: string, dirty: set<string>, fuel: nat)
    requires x == y || Reaches(g, x, y)
    requires OnCycle(g, y)
    ensures WalkFrom(g, x, dirty, fuel) == None
    decreases fuel, 0
  {
    if fuel > 0 {
      var c;
      if x == y {
        c := ReachesFirstStep(g, y, y);
      } else {
        c := ReachesFirstStep(g, x, y);
      }
      var names := Succs(g, x);
      var i :| 0 <= i < |names| && names[i] == c;
      EachDiverges(g, names, i, y, dirty, fuel - 1);
    }
  }

  lemma {:induction false} EachDiverges(g: Graph, names: seq<string>, i: nat, y: string, dirty: set<string>, fuel: nat)
    requires i < |names|
    requires names[i] == y || Reaches(g, names[i], y)
    requires OnCycle(g, y)
    ensures WalkEach(g, names, dirty, fuel) == None
    decreases fuel, 1, |names|
  {
    if i == 0 {
      WalkDiverges(g, names[0], y, dirty + {names[0]}, fuel);
    } else {
      match WalkFrom(g, names[0], dirty + {names[0]}, fuel)
      case None =>
      case Some(d) =>
        assert names[1..][i - 1] == names[i];
        EachDiverges(g, names[1..], i - 1, y, d, fuel);
    }
  }

  /** A dependent of `x` reaches strictly fewer names than `x` when no cycle
      is reachable from `x`. */
  lemma SuccReachesLess(g: Graph, x: string, c: string)
    requires CycleFreeFrom(g, x)
    requires Edge(g, x, c)
    ensures CycleFreeFrom(g, c)
    ensures |Reach(g, c)| < |Reach(g, x)|
  {
    EdgeReaches(g, x, c);
    forall y | y == c || Reaches(g, c, y) ensures !OnCycle(g, y) {
      if y != c {
        ReachesTrans(g, x, c, y);
      }
    }
    forall y | y in Reach(g, c) ensures y in Reach(g, x) {
      ReachesTrans(g, x, c, y);
    }
    assert c in Reach(g, x) - Reach(g, c);
    assert Reach(g, x) == Reach(g, c) + (Reach(g, x) - Reach(g, c));
  }

  /** Every name of `names` reaches no cycle and fewer than `fuel` names. */
  ghost predicate AllFit(g: Graph, names: seq<string>, fuel: nat) {
    forall i :: 0 <= i < |names| ==> CycleFreeFrom(g, names[i]) && fuel > |Reach(g, names[i])|
  }

  lemma SuccsReachLess(g: Graph, x: string, fuel: nat, f: nat)
    requires CycleFreeFrom(g, x)
    requires fuel == f + 1 && fuel > |Reach(g, x)|
    ensures AllFit(g, Succs(g, x), f)
  {
    var names := Succs(g, x);
    forall i | 0 <= i < |names|
      ensures CycleFreeFrom(g, names[i]) && f > |Reach(g, names[i])|
    {
      assert Edge(g, x, names[i]);
      SuccReachesLess(g, x, names[i]);
    }
  }

  lemma WalkFromUnfold(g: Graph, x: string, dirty: set<string>, fuel: nat, f: nat)
    requires fuel == f + 1
    ensures WalkFrom(g, x, dirty, fuel) == WalkEach(g, Succs(g, x), dirty, f)
  {
  }

  /** The loop over names that reach no cycle finishes when the stack is
      deeper than what each of them reaches. */
  lemma {:induction false} EachTerminates(g: Graph, names: seq<string>, dirty: set<string>, fuel: nat)
    requires AllFit(g, names, fuel)
    ensures WalkEach(g, names, dirty, fuel).Some?
    decreases fuel, |names|
  {
    if names != [] {
      var x := names[0];
      var d0 := dirty + {x};
      var f: nat := fuel - 1;
      SuccsReachLess(g, x, fuel, f);
      EachTerminates(g, Succs(g, x), d0, f);
      WalkFromUnfold(g, x, d0, fuel, f);
      var d := WalkFrom(g, x, d0, fuel).value;
      assert AllFit(g, names[1..], fuel) by {
        forall i | 0 <= i < |names[1..]|
          ensures CycleFreeFrom(g, names[1..][i]) && fuel > |Reach(g, names[1..][i])|
        {
          assert names[1..][i] == names[i + 1];
        }
      }
      EachTerminates(g, names[1..], d, fuel);
    }
  }

  /** If no cycle is reachable from `x`, a stack deeper than the number of
      names `x` reaches is enough for the recursion to finish, and it then
      marks exactly what `Propagation.Propagate` marks: the old dirty set
      plus everything reachable from `x`. */
  lemma WalkTerminates(g: Graph, x: string, dirty: set<string>, fuel: nat)
    requires CycleFreeFrom(g, x)
    requires fuel > |Reach(g, x)|
    ensures WalkFrom(g, x, dirty, fuel) == Some(dirty + Reach(g, x))
  {
    var f: nat := fuel - 1;
    SuccsReachLess(g, x, fuel, f);
    EachTerminates(g, Succs(g, x), dirty, f);
    WalkFromUnfold(g, x, dirty, fuel, f);
    WalkFromMarks(g, x, dirty, fuel);
  }

  /** The recursion finishes for some stack depth exactly when no cycle is
      reachable from the start. */
  lemma WalkReturnsIffCycleFree(g: Graph, p: string, dirty: set<string>)
    ensures (exists fuel: nat :: WalkFrom(g, p, dirty, fuel).Some?) <==> CycleFreeFrom(g, p)
  {
    if CycleFreeFrom(g, p) {
      WalkTerminates(g, p, dirty, |Reach(g, p)| + 1);
    } else {
      var y :| (y == p || Reaches(g, p, y)) && OnCycle(g, y);
      forall fuel: nat ensures WalkFrom(g, p, dirty, fuel) == None {
        WalkDiverges(g, p, y, dirty, fuel);
      }
    }
  }

  /** A method that lists itself as a dependency, behind a tracked property
      `p`: the recursion from `p` never finishes, while `Propagate` marks
      just the method. */
  lemma SelfDependencyOverflows(fuel: nat)
    ensures var g := map["p" := ["m"], "m" := ["m"]];
            WalkFrom(g, "p", {}, fuel) == None && Propagation.Propagate(g, "p", {}) == {"m"}
  {
    var g := map["p" := ["m"], "m" := ["m"]];
    assert Edge(g, "m", "m");
    EdgeReaches(g, "m", "m");
    assert Edge(g, "p", "m");
    EdgeReaches(g, "p", "m");
    WalkDiverges(g, "p", "m", {}, fuel);
    assert Closed(g, {"m"});
    ReachLeast(g, "p", {"m"});
  }
}
