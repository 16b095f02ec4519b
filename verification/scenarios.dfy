/** The behaviour test/decorators.test.ts checks, replayed on the model of
    the current engine. The class under test has tracked `input1`, `input2`
    and `hashAlgorithm`; `concatInputs` depends on the two inputs and
    `hashInputs` on `concatInputs` and `hashAlgorithm`. The crypto digest
    is replaced by `Digest`, which keeps the algorithm and the input apart;
    the spies are the run counters of the state. */
module Scenarios {
  import opened JsValues
  import opened DependencyGraph
  import opened Engine

  const In1 := "input1"
  const In2 := "input2"
  const Alg := "hashAlgorithm"
  const Concat := "concatInputs"
  const Hash := "hashInputs"

  function Digest(algorithm: string, input: string): string {
    algorithm + ":" + input
  }

  /** `this.input1.concat(this.input2)`. */
  function ConcatEval(props: map<string, JsValue>): Result<JsValue> {
    var a := if In1 in props then props[In1] else Undefined;
    var b := if In2 in props then props[In2] else Undefined;
    if a.Str? && b.Str? then Ok(Str(a.s + b.s)) else Err(TypeError)
  }

  /** `hashInputs`: awaits `concatInputs` through its wrapper, then digests
      the result with the current algorithm. */
  function HashBody(st: State): Step {
    var c := Call(st, Concat, ConcatEval);
    match c.outcome
    case Err(e) => c
    case Ok(v) =>
      var alg := Prop(st, Alg);
      if alg.Str? && v.Str? then Step(c.after, Ok(Str(Digest(alg.s, v.s))))
      else Step(c.after, Err(TypeError))
  }

  /** The dependency lists the two registrations produce. */
  ghost predicate Shape(g: Graph) {
    && Succs(g, In1) == [Concat] && Succs(g, In2) == [Concat]
    && Succs(g, Concat) == [Hash] && Succs(g, Alg) == [Hash]
    && Succs(g, Hash) == []
  }

  lemma Count2(a: string, b: string, k: string)
    ensures Count([a, b], k) == (if a == k then 1 else 0) + (if b == k then 1 else 0)
  {
    assert [a, b][1..] == [b];
    assert [b][1..] == [];
    assert Count([b], k) == (if b == k then 1 else 0) + Count([], k);
  }

  lemma Repeat01(m: string)
    ensures Repeat(m, 0) == [] && Repeat(m, 1) == [m]
  {
  }

  /** The two `@cache` registrations of the class. */
  function Declared(): (r: Result<State>)
    ensures r.Ok? ==> r.value.(graph := map[]) == Empty
  {
    match Register(Empty, Concat, [In1, In2], Data(Fun(0)))
    case Err(e) => Err(e)
    case Ok(s) => Register(s, Hash, [Concat, Alg], Data(Fun(1)))
  }

  lemma DeclaredGraph()
    ensures Declared().Ok?
    ensures Shape(Declared().value.graph)
  {
    var s0 := Register(Empty, Concat, [In1, In2], Data(Fun(0)));
    assert s0.Ok?;
    var s1 := Register(s0.value, Hash, [Concat, Alg], Data(Fun(1)));
    assert s1.Ok?;
    assert Declared() == s1;
    var g0 := s0.value.graph;
    var g1 := s1.value.graph;
    Repeat01(Concat);
    Repeat01(Hash);
    DistinctNames();
    Count2(In1, In2, In1);
    Count2(In1, In2, In2);
    Count2(In1, In2, Concat);
    Count2(In1, In2, Alg);
    Count2(In1, In2, Hash);
    Count2(Concat, Alg, In1);
    Count2(Concat, Alg, In2);
    Count2(Concat, Alg, Concat);
    Count2(Concat, Alg, Alg);
    Count2(Concat, Alg, Hash);
    assert Succs(g0, In1) == [Concat] && Succs(g0, In2) == [Concat];
    assert Succs(g0, Concat) == [] && Succs(g0, Alg) == [] && Succs(g0, Hash) == [];
  }

  lemma ReachAlg(g: Graph)
    requires Shape(g)
    ensures Reach(g, Alg) == {Hash}
  {
    assert Closed(g, {Hash});
    ReachLeast(g, Alg, {Hash});
    assert Edge(g, Alg, Hash);
    EdgeReaches(g, Alg, Hash);
  }

  lemma ReachInput(g: Graph, p: string)
    requires Shape(g) && (p == In1 || p == In2)
    ensures Reach(g, p) == {Concat, Hash}
  {
    assert Closed(g, {Concat, Hash});
    ReachLeast(g, p, {Concat, Hash});
    assert Edge(g, p, Concat) && Edge(g, Concat, Hash);
    EdgeReaches(g, p, Concat);
    ReachesExtend(g, p, Concat, Hash);
  }

  /** What the tests observe of the class: the three tracked values, whether
      each method is dirty, both stored values and both run counters. */
  datatype View = View(in1: string, in2: string, alg: string,
                       concatDirty: bool, hashDirty: bool,
                       concat: JsValue, hash: JsValue,
                       concatRuns: nat, hashRuns: nat)

  /** `s` is a state over graph `g` that the tests see as `v`. */
  predicate Looks(s: State, g: Graph, v: View) {
    && s.graph == g
    && Prop(s, In1) == Str(v.in1) && Prop(s, In2) == Str(v.in2) && Prop(s, Alg) == Str(v.alg)
    && (IsCacheDirty(s, Concat) <==> v.concatDirty) && (IsCacheDirty(s, Hash) <==> v.hashDirty)
    && Stored(s, Concat) == v.concat && Stored(s, Hash) == v.hash
    && Runs(s, Concat) == v.concatRuns && Runs(s, Hash) == v.hashRuns
  }

  /** The view after `concatInputs` has recomputed. */
  function ConcatDone(v: View): View {
    v.(concatDirty := false, concat := Str(v.in1 + v.in2), concatRuns := v.concatRuns + 1)
  }

  /** The view after `hashInputs` has recomputed, having run `concatInputs`
      first when that missed. */
  function HashDone(v: View): View {
    var w := if Truthy(v.concat) && !v.concatDirty then v else ConcatDone(v);
    w.(hashDirty := false, hash := Str(Digest(v.alg, v.in1 + v.in2)), hashRuns := v.hashRuns + 1)
  }

  /** `HashDone` is: count the run, settle `concatInputs`, store the digest. */
  lemma HashDoneSteps(v: View)
    ensures var vb := v.(hashRuns := v.hashRuns + 1);
            var vc := if Truthy(v.concat) && !v.concatDirty then vb else ConcatDone(vb);
            HashDone(v) == vc.(hashDirty := false, hash := Str(Digest(v.alg, v.in1 + v.in2)))
  {
  }

  /** The five member names are pairwise distinct. */
  lemma DistinctNames()
    ensures In1 != In2 && In1 != Alg && In1 != Concat && In1 != Hash
    ensures In2 != Alg && In2 != Concat && In2 != Hash
    ensures Alg != Concat && Alg != Hash && Concat != Hash
  {
    assert In1[5] != In2[5];
  }

  /** The field initialisers, on the declared state `d`: `input1 = ''`,
      `input2 = ''`, `hashAlgorithm = 'md5'`. */
  function Initialised(d: State): State {
    Write(Write(Write(d, In1, Str("")), In2, Str("")), Alg, Str("md5"))
  }

  /** The constructor body after them: `input1 = 'input1'`, `input2 = 'input2'`. */
  function Constructed(d: State): State {
    Write(Write(Initialised(d), In1, Str("input1")), In2, Str("input2"))
  }

  /** The view of the class once constructed. */
  const Initial := View("input1", "input2", "md5", true, true, Undefined, Undefined, 0, 0)

  /** The initialisers change every tracked value from `undefined`, so both
      methods are dirty once they have run. */
  lemma InitialisedLooks(d: State)
    requires Shape(d.graph) && d.(graph := map[]) == Empty
    ensures Looks(Initialised(d), d.graph, View("", "", "md5", true, true, Undefined, Undefined, 0, 0))
  {
    DistinctNames();
    ReachAlg(d.graph);
    ReachInput(d.graph, In1);
    var s1 := Write(d, In1, Str(""));
    assert Concat in s1.dirty && Hash in s1.dirty && s1.graph == d.graph;
  }

  /** After construction every input is set, both methods are dirty and
      neither has run. */
  lemma ConstructedLooks(d: State)
    requires Shape(d.graph) && d.(graph := map[]) == Empty
    ensures Looks(Constructed(d), d.graph, Initial)
  {
    InitialisedLooks(d);
    var v := View("", "", "md5", true, true, Undefined, Undefined, 0, 0);
    WriteInput1(Initialised(d), d.graph, v, "input1");
    WriteInput2(Write(Initialised(d), In1, Str("input1")), d.graph, v.(in1 := "input1"), "input2");
  }

  /** The class as the tests find it: declared, then constructed. */
  lemma Started()
    ensures Declared().Ok?
    ensures Looks(Constructed(Declared().value), Declared().value.graph, Initial)
  {
    DeclaredGraph();
    ConstructedLooks(Declared().value);
  }

  /** `input1 = x` with `x` new: both methods become dirty. */
  lemma WriteInput1(s: State, g: Graph, v: View, x: string)
    requires Shape(g) && Looks(s, g, v)
    requires x != v.in1
    ensures Looks(Write(s, In1, Str(x)), g, v.(in1 := x, concatDirty := true, hashDirty := true))
  {
    DistinctNames();
    ReachInput(g, In1);
  }

  /** `input2 = x` with `x` new: both methods become dirty. */
  lemma WriteInput2(s: State, g: Graph, v: View, x: string)
    requires Shape(g) && Looks(s, g, v)
    requires x != v.in2
    ensures Looks(Write(s, In2, Str(x)), g, v.(in2 := x, concatDirty := true, hashDirty := true))
  {
    DistinctNames();
    ReachInput(g, In2);
  }

  /** `hashAlgorithm = x` with `x` new: only `hashInputs` becomes dirty. */
  lemma WriteAlgorithm(s: State, g: Graph, v: View, x: string)
    requires Shape(g) && Looks(s, g, v)
    requires x != v.alg
    ensures Looks(Write(s, Alg, Str(x)), g, v.(alg := x, hashDirty := true))
  {
    DistinctNames();
    ReachAlg(g);
  }

  /** A call of `concatInputs` whose stored value is set and clean is a hit. */
  lemma ConcatHit(s: State, g: Graph, v: View)
    requires Looks(s, g, v)
    requires Truthy(v.concat) && !v.concatDirty
    ensures Call(s, Concat, ConcatEval) == Step(s, Ok(v.concat))
  {
  }

  /** Otherwise the call runs once and stores `input1 + input2`. */
  lemma ConcatMiss(s: State, g: Graph, v: View)
    requires Looks(s, g, v)
    requires !(Truthy(v.concat) && !v.concatDirty)
    ensures var r := Call(s, Concat, ConcatEval);
            r.outcome == Ok(Str(v.in1 + v.in2)) && Looks(r.after, g, ConcatDone(v))
  {
    DistinctNames();
  }

  /** A miss of the wrapper, once the body has succeeded: its result is
      stored and the dirty flag of `m` cleared in the state the body left. */
  lemma InvokeMiss(s: State, m: string, body: State -> Step)
    requires !Hit(s, m) && body(Begin(s, m)).outcome.Ok?
    ensures var b := body(Begin(s, m));
            Invoke(s, m, body) == Step(UnsetIsCacheDirty(b.after.(cache := b.after.cache[m := b.outcome.value]), m), b.outcome)
  {
  }

  /** What the body of `hashInputs` leaves: the state after its call of
      `concatInputs`, and the digest of that call's string result. */
  lemma HashBodyResult(st: State, alg: string, x: string)
    requires Prop(st, Alg) == Str(alg)
    requires Call(st, Concat, ConcatEval).outcome == Ok(Str(x))
    ensures HashBody(st) == Step(Call(st, Concat, ConcatEval).after, Ok(Str(Digest(alg, x))))
  {
  }

  /** Storing the result of `hashInputs` and clearing its flag. */
  lemma StoreHash(t: State, g: Graph, v: View, d: JsValue)
    requires Looks(t, g, v)
    ensures Looks(UnsetIsCacheDirty(t.(cache := t.cache[Hash := d]), Hash), g, v.(hashDirty := false, hash := d))
  {
    DistinctNames();
  }

  /** A call of `hashInputs` whose stored value is set and clean is a hit. */
  lemma HashHit(s: State, g: Graph, v: View)
    requires Looks(s, g, v)
    requires Truthy(v.hash) && !v.hashDirty
    ensures Invoke(s, Hash, HashBody) == Step(s, Ok(v.hash))
  {
  }

  /** Otherwise `hashInputs` runs once: it calls `concatInputs` (which runs
      only if it misses) and stores the digest of the concatenation. */
  lemma HashMiss(s: State, g: Graph, v: View)
    requires Looks(s, g, v)
    requires !(Truthy(v.hash) && !v.hashDirty)
    requires v.concatDirty || v.concat == Str(v.in1 + v.in2)
    ensures var r := Invoke(s, Hash, HashBody);
            r.outcome == Ok(Str(Digest(v.alg, v.in1 + v.in2))) && Looks(r.after, g, HashDone(v))
  {
    DistinctNames();
    var b := Begin(s, Hash);
    var vb := v.(hashRuns := v.hashRuns + 1);
    assert Looks(b, g, vb);
    var c := Call(b, Concat, ConcatEval);
    var vc := if Truthy(v.concat) && !v.concatDirty then vb else ConcatDone(vb);
    if Truthy(v.concat) && !v.concatDirty {
      ConcatHit(b, g, vb);
    } else {
      ConcatMiss(b, g, vb);
    }
    var d := Str(Digest(v.alg, v.in1 + v.in2));
    HashBodyResult(b, v.alg, v.in1 + v.in2);
    InvokeMiss(s, Hash, HashBody);
    StoreHash(c.after, g, vc, d);
    HashDoneSteps(v);
  }

  /** Once `hashInputs` has recomputed, both methods are clean and it holds a
      truthy digest. */
  lemma HashDoneClean(v: View)
    requires v.concatDirty || v.concat == Str(v.in1 + v.in2)
    ensures var w := HashDone(v);
            && !w.hashDirty && !w.concatDirty && Truthy(w.hash)
            && w.hash == Str(Digest(v.alg, v.in1 + v.in2))
            && w.concat == Str(v.in1 + v.in2)
  {
    assert |Digest(v.alg, v.in1 + v.in2)| > 0;
  }

  /** The view after the first `concatInputs` and `hashInputs` runs. */
  lemma FirstHashView(a: string, b: string, alg: string, c0: JsValue, n: nat, k: nat)
    requires a + b != ""
    ensures HashDone(ConcatDone(View(a, b, alg, true, true, c0, Undefined, n, k)))
            == View(a, b, alg, false, false, Str(a + b), Str(Digest(alg, a + b)), n + 1, k + 1)
  {
    assert |a + b| > 0;
  }

  /** The view after `hashInputs` reruns for a new algorithm. */
  lemma SecondHashView(a: string, b: string, alg: string, alg2: string, n: nat, k: nat)
    requires a + b != ""
    ensures HashDone(View(a, b, alg2, false, true, Str(a + b), Str(Digest(alg, a + b)), n, k))
            == View(a, b, alg2, false, false, Str(a + b), Str(Digest(alg2, a + b)), n, k + 1)
  {
    assert |a + b| > 0;
  }

  /** Two calls of `concatInputs` in a row while it is dirty: the first runs
      the computation, the second is a hit on the value just stored. */
  lemma ComputeThenHit(s: State, g: Graph, v: View, c1: Step, c2: Step)
    requires Looks(s, g, v)
    requires v.concatDirty && v.in1 != ""
    requires c1 == Call(s, Concat, ConcatEval) && c2 == Call(c1.after, Concat, ConcatEval)
    ensures c1.outcome == Ok(Str(v.in1 + v.in2)) && c2 == Step(c1.after, c1.outcome)
    ensures Looks(c2.after, g, ConcatDone(v))
  {
    ConcatMiss(s, g, v);
    assert (v.in1 + v.in2)[0] == v.in1[0];
    ConcatHit(c1.after, g, ConcatDone(v));
  }

  /** Two calls of `hashInputs` in a row while it is dirty: the first
      recomputes, the second is a hit. */
  lemma HashPair(s: State, g: Graph, v: View, h1: Step, h2: Step)
    requires Looks(s, g, v)
    requires v.hashDirty && (v.concatDirty || v.concat == Str(v.in1 + v.in2))
    requires h1 == Invoke(s, Hash, HashBody) && h2 == Invoke(h1.after, Hash, HashBody)
    ensures h1.outcome == Ok(Str(Digest(v.alg, v.in1 + v.in2))) && h2 == Step(h1.after, h1.outcome)
    ensures Looks(h2.after, g, HashDone(v))
  {
    HashMiss(s, g, v);
    HashDoneClean(v);
    HashHit(h1.after, g, HashDone(v));
  }

  /** test/decorators.test.ts:45-56, for any inputs (the test uses
      `'input1'` and `'input2'`): on the constructed class the first call of
      `concatInputs` runs it and returns the concatenation; the second is a
      hit and does not run it again. */
  lemma SecondCallIsCached(s0: State, g: Graph, a: string, b: string, alg: string, c1: Step, c2: Step)
    requires Looks(s0, g, View(a, b, alg, true, true, Undefined, Undefined, 0, 0))
    requires a != ""
    requires c1 == Call(s0, Concat, ConcatEval)
    requires c2 == Call(c1.after, Concat, ConcatEval)
    ensures c1.outcome == Ok(Str(a + b)) && Runs(c1.after, Concat) == 1
    ensures c2.outcome == Ok(Str(a + b)) && Runs(c2.after, Concat) == 1
    ensures Looks(c2.after, g, View(a, b, alg, false, true, Str(a + b), Undefined, 1, 0))
  {
    ComputeThenHit(s0, g, View(a, b, alg, true, true, Undefined, Undefined, 0, 0), c1, c2);
  }

  /** test/decorators.test.ts:58-66: writing a new `input1` (the test uses
      `'new'`) invalidates `concatInputs`, so the next call runs it once more
      and returns the new concatenation, and the call after that is a hit. */
  lemma InputWriteRecomputesOnce(s: State, g: Graph, a: string, b: string, alg: string, x: string)
    requires Shape(g) && Looks(s, g, View(a, b, alg, false, true, Str(a + b), Undefined, 1, 0))
    requires x != "" && x != a
    ensures var c3 := Call(Write(s, In1, Str(x)), Concat, ConcatEval);
            var c4 := Call(c3.after, Concat, ConcatEval);
            && c3.outcome == Ok(Str(x + b)) && Runs(c3.after, Concat) == 2
            && c4.outcome == Ok(Str(x + b)) && Runs(c4.after, Concat) == 2
            && Looks(c4.after, g, View(x, b, alg, false, true, Str(x + b), Undefined, 2, 0))
  {
    var v := View(a, b, alg, false, true, Str(a + b), Undefined, 1, 0);
    var w := Write(s, In1, Str(x));
    WriteInput1(s, g, v, x);
    var c3 := Call(w, Concat, ConcatEval);
    ComputeThenHit(w, g, v.(in1 := x, concatDirty := true, hashDirty := true), c3, Call(c3.after, Concat, ConcatEval));
  }

  /** The next test constructs a new instance on the class state the
      previous one left: the field initialisers write `''`, `''` and `'md5'`,
      and the constructor `'input1'` and `'input2'`. Both methods end dirty,
      the stored values and the run counters are kept. Test 1 ends, by
      `InputWriteRecomputesOnce`, in the view
      `View("new", "input2", "md5", false, true, Str("newinput2"), Undefined, 2, 0)`,
      which meets these requires. */
  lemma NextTestStart(s: State, g: Graph, v: View)
    requires Shape(g) && Looks(s, g, v)
    requires v.in1 != "" && v.in2 != ""
    ensures Looks(Constructed(s), g,
                  v.(in1 := "input1", in2 := "input2", alg := "md5", concatDirty := true, hashDirty := true))
  {
    var s1 := Write(s, In1, Str(""));
    WriteInput1(s, g, v, "");
    var v1 := v.(in1 := "", concatDirty := true, hashDirty := true);
    var s2 := Write(s1, In2, Str(""));
    WriteInput2(s1, g, v1, "");
    var v2 := v1.(in2 := "");
    var s3 := Write(s2, Alg, Str("md5"));
    if v.alg == "md5" {
      WriteAlgorithmSame(s2, g, v2);
    } else {
      WriteAlgorithm(s2, g, v2, "md5");
    }
    var v3 := v2.(alg := "md5");
    assert Initialised(s) == s3;
    var s4 := Write(s3, In1, Str("input1"));
    WriteInput1(s3, g, v3, "input1");
    WriteInput2(s4, g, v3.(in1 := "input1"), "input2");
  }

  /** Writing the algorithm already set changes nothing the tests see. */
  lemma WriteAlgorithmSame(s: State, g: Graph, v: View)
    requires Looks(s, g, v)
    ensures Looks(Write(s, Alg, Str(v.alg)), g, v)
  {
    DistinctNames();
  }

  /** test/decorators.test.ts:69-89, for any inputs (the test uses
      `'input1'`, `'input2'` and `'md5'`), starting from the view
      `NextTestStart` gives: `concatInputs` may still hold an old value `c0`
      and the counters `n` and `k` are what earlier tests left (the test
      resets the spy of `concatInputs` between tests, and `hashInputs` has
      not run before). After one call of `concatInputs`, `hashInputs` runs
      once and reuses that result; a second `hashInputs` call is a hit. Each
      method has run exactly once more. */
  lemma HashReusesCleanConcat(s0: State, g: Graph, a: string, b: string, alg: string, c0: JsValue,
                              n: nat, k: nat, c1: Step, h1: Step, h2: Step)
    requires Looks(s0, g, View(a, b, alg, true, true, c0, Undefined, n, k))
    requires a + b != ""
    requires c1 == Call(s0, Concat, ConcatEval)
    requires h1 == Invoke(c1.after, Hash, HashBody)
    requires h2 == Invoke(h1.after, Hash, HashBody)
    ensures c1.outcome == Ok(Str(a + b)) && Runs(c1.after, Concat) == n + 1
    ensures h1.outcome == Ok(Str(Digest(alg, a + b))) && h2.outcome == h1.outcome
    ensures Runs(h1.after, Concat) == n + 1 && Runs(h1.after, Hash) == k + 1
    ensures Runs(h2.after, Concat) == n + 1 && Runs(h2.after, Hash) == k + 1
    ensures Looks(h2.after, g, View(a, b, alg, false, false, Str(a + b), Str(Digest(alg, a + b)), n + 1, k + 1))
  {
    DistinctNames();
    var v0 := View(a, b, alg, true, true, c0, Undefined, n, k);
    ConcatMiss(s0, g, v0);
    var v1 := ConcatDone(v0);
    HashPair(c1.after, g, v1, h1, h2);
    FirstHashView(a, b, alg, c0, n, k);
  }

  /** test/decorators.test.ts:91-103: writing a new `hashAlgorithm` dirties
      `hashInputs` but not `concatInputs`, so the next `hashInputs` call runs
      it alone, with the new algorithm, and the call after that is a hit. */
  lemma AlgorithmWriteDirtiesHashOnly(s: State, g: Graph, a: string, b: string, alg: string, alg2: string,
                                      n: nat, k: nat)
    requires Shape(g)
    requires Looks(s, g, View(a, b, alg, false, false, Str(a + b), Str(Digest(alg, a + b)), n, k))
    requires a + b != "" && alg2 != alg
    ensures var w := Write(s, Alg, Str(alg2));
            var h3 := Invoke(w, Hash, HashBody);
            var h4 := Invoke(h3.after, Hash, HashBody);
            && !IsCacheDirty(w, Concat) && IsCacheDirty(w, Hash)
            && h3.outcome == Ok(Str(Digest(alg2, a + b))) && h4.outcome == h3.outcome
            && Runs(h3.after, Concat) == n && Runs(h3.after, Hash) == k + 1
            && Runs(h4.after, Concat) == n && Runs(h4.after, Hash) == k + 1
            && Looks(h4.after, g, View(a, b, alg2, false, false, Str(a + b), Str(Digest(alg2, a + b)), n, k + 1))
  {
    DistinctNames();
    var v := View(a, b, alg, false, false, Str(a + b), Str(Digest(alg, a + b)), n, k);
    var w := Write(s, Alg, Str(alg2));
    WriteAlgorithm(s, g, v, alg2);
    var v3 := v.(alg := alg2, hashDirty := true);
    var h3 := Invoke(w, Hash, HashBody);
    HashPair(w, g, v3, h3, Invoke(h3.after, Hash, HashBody));
    SecondHashView(a, b, alg, alg2, n, k);
  }

  /** test/decorators.test.ts:105-112: writing a new `input1` dirties
      `concatInputs` and, through it, `hashInputs`; the next `hashInputs`
      call runs each of them once more. */
  lemma InputWriteDirtiesBoth(s: State, g: Graph, a: string, b: string, alg: string, x: string,
                              n: nat, k: nat)
    requires Shape(g)
    requires Looks(s, g, View(a, b, alg, false, false, Str(a + b), Str(Digest(alg, a + b)), n, k))
    requires x != a
    ensures var w := Write(s, In1, Str(x));
            var h5 := Invoke(w, Hash, HashBody);
            && IsCacheDirty(w, Concat) && IsCacheDirty(w, Hash)
            && h5.outcome == Ok(Str(Digest(alg, x + b)))
            && Runs(h5.after, Concat) == n + 1 && Runs(h5.after, Hash) == k + 1
  {
    DistinctNames();
    var v := View(a, b, alg, false, false, Str(a + b), Str(Digest(alg, a + b)), n, k);
    WriteInput1(s, g, v, x);
    HashMiss(Write(s, In1, Str(x)), g, v.(in1 := x, concatDirty := true, hashDirty := true));
  }

  /** test/decorators.test.ts:116-133: `@cache()` on a getter throws at
      declaration time and leaves the graph untouched. */
  lemma GetterIsRejected(s: State)
    ensures Register(s, "value", [], Accessor) == Err(ConfigError(InvalidDescriptor))
  {
  }
}
