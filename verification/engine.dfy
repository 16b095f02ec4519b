/** The current engine (src/index.ts): the `@cache(...deps)` registration,
    the `@tracked` setter and the cached-method wrapper, as pure transitions
    on one state record.

    The source keeps this state per class, not per instance: the dependency
    graph and the dirty map are keyed by the class prototype, and the
    property value and the cached value live in variables closed over by
    the decorators. So one `State` stands for one decorated class. */
module Engine {
  import opened JsValues
  import opened DependencyGraph
  import Propagation
  import RecursiveWalk

  datatype State = State(
    graph: Graph,                  // dependency name -> dependent methods
    dirty: set<string>,            // stale cached methods
    props: map<string, JsValue>,   // tracked property values
    cache: map<string, JsValue>,   // stored result per cached method
    runs: map<string, nat>)        // how often each computation has run

  /** A class with nothing registered, written or computed yet. */
  const Empty := State(map[], {}, map[], map[], map[])

  /** The tracked getter: a property never written reads as `undefined`. */
  function Prop(s: State, p: string): JsValue {
    if p in s.props then s.props[p] else Undefined
  }

  /** The stored result of a cached method; `undefined` before the first run. */
  function Stored(s: State, m: string): JsValue {
    if m in s.cache then s.cache[m] else Undefined
  }

  function Runs(s: State, m: string): nat {
    if m in s.runs then s.runs[m] else 0
  }

  predicate IsCacheDirty(s: State, m: string) {
    m in s.dirty
  }

  /** The wrapper reuses the stored result exactly when it is truthy and the
      method is not dirty: a stored `0`, `''` or `false` counts as missing. */
  predicate Hit(s: State, m: string) {
    Truthy(Stored(s, m)) && !IsCacheDirty(s, m)
  }

  /** Clears the dirty flag of `m` and of no other name. */
  function UnsetIsCacheDirty(s: State, m: string): (r: State)
    ensures !IsCacheDirty(r, m)
    ensures forall n :: n != m ==> (IsCacheDirty(r, n) <==> IsCacheDirty(s, n))
    ensures r.(dirty := s.dirty) == s
    ensures !IsCacheDirty(s, m) ==> r == s
  {
    if m in s.dirty then s.(dirty := s.dirty - {m}) else s
  }

  /** Marks dirty every method reachable from `p` in the graph. */
  function UpdateDirtyStates(s: State, p: string): (r: State)
    ensures forall n :: IsCacheDirty(r, n) <==> IsCacheDirty(s, n) || Reaches(s.graph, p, n)
    ensures r.(dirty := s.dirty) == s
  {
    s.(dirty := Propagation.Propagate(s.graph, p, s.dirty))
  }

  /* ---------------- Registration ---------------- */

  /** What the decorator receives for the member it is applied to. */
  datatype Descriptor =
    | NoDescriptor            // a field: no descriptor is passed
    | Data(value: JsValue)    // a method (its value a function) or a plain value
    | Accessor                // a getter/setter pair: it has no `value`

  function DescriptorValue(d: Descriptor): JsValue {
    if d.Data? then d.value else Undefined
  }

  const InvalidDescriptor :=
    "No valid property descriptor value. Property descriptor value should be '() => Promise<any>'"

  /** Applying `@cache(...deps)` to member `m`: fails, changing nothing, unless
      the member's descriptor value is a function; otherwise `m` is appended
      once per occurrence to the dependents of every name in `deps`, entries
      being created as needed, and nothing else changes. */
  function Register(s: State, m: string, deps: seq<string>, d: Descriptor): (r: Result<State>)
    ensures r.Err? <==> !DescriptorValue(d).Fun?
    ensures r.Err? ==> r.error == ConfigError(InvalidDescriptor)
    ensures r.Ok? ==> r.value.(graph := s.graph) == s
    ensures r.Ok? ==> forall k :: k in r.value.graph <==> k in s.graph || k in deps
    ensures r.Ok? ==> forall k :: Succs(r.value.graph, k) == Succs(s.graph, k) + Repeat(m, Count(deps, k))
  {
    var v := DescriptorValue(d);
    if !Truthy(v) || !v.Fun? then Err(ConfigError(InvalidDescriptor))
    else Ok(s.(graph := AddDependents(s.graph, deps, m)))
  }

  /* ---------------- The tracked setter ---------------- */

  /** Writing `v` to tracked property `p`: the value is always stored; when it
      differs (`!==`) from the current one, every method reachable from `p`
      becomes dirty, and otherwise the dirty set is untouched. */
  function Write(s: State, p: string, v: JsValue): (r: State)
    ensures Prop(r, p) == v
    ensures forall q :: q != p ==> Prop(r, q) == Prop(s, q)
    ensures StrictEq(Prop(s, p), v) ==> r.dirty == s.dirty
    ensures !StrictEq(Prop(s, p), v) ==> r.dirty == s.dirty + Reach(s.graph, p)
    ensures r.graph == s.graph && r.cache == s.cache && r.runs == s.runs
  {
    var s1 := if !StrictEq(Prop(s, p), v) then UpdateDirtyStates(s, p) else s;
    s1.(props := s1.props[p := v])
  }

  /** The setter calls the recursion of src/index.ts:108-117 before it
      stores the value. When no cycle is reachable from `p` that recursion
      returns, given a stack deeper than the number of names `p` reaches,
      and it leaves exactly the dirty set `Write` computes. (When a cycle is
      reachable it never returns: see `RecursiveWalk.WalkDiverges`.) */
  lemma WriteMatchesRecursion(s: State, p: string, v: JsValue, fuel: nat)
    requires RecursiveWalk.CycleFreeFrom(s.graph, p)
    requires fuel > |Reach(s.graph, p)|
    requires !StrictEq(Prop(s, p), v)
    ensures RecursiveWalk.WalkFrom(s.graph, p, s.dirty, fuel) == Some(Write(s, p, v).dirty)
  {
    RecursiveWalk.WalkTerminates(s.graph, p, s.dirty, fuel);
  }

  /* ---------------- The cached-method wrapper ---------------- */

  /** The state after a computation, and what the caller receives. */
  datatype Step = Step(after: State, outcome: Result<JsValue>)

  /** The original method starts: its run is counted. */
  function Begin(s: State, m: string): (r: State)
    ensures Runs(r, m) == Runs(s, m) + 1
    ensures forall n :: n != m ==> Runs(r, n) == Runs(s, n)
    ensures r.(runs := s.runs) == s
  {
    s.(runs := s.runs[m := Runs(s, m) + 1])
  }

  /** One call of the wrapper of cached method `m` whose original method is
      `body`. The body sees the state when it starts and returns the state
      when it finishes (it may itself call other cached methods or write
      tracked properties). On a hit the stored value is returned and nothing
      runs. On a miss the body runs once; if it succeeds its result is
      stored and the dirty flag of `m` is cleared, and if it fails the
      failure is returned and the wrapper itself changes nothing. */
  function Invoke(s: State, m: string, body: State -> Step): (r: Step)
    ensures Hit(s, m) ==> r == Step(s, Ok(Stored(s, m)))
    ensures !Hit(s, m) ==> r.outcome == body(Begin(s, m)).outcome
    ensures !Hit(s, m) && r.outcome.Err? ==> r.after == body(Begin(s, m)).after
    ensures !Hit(s, m) && r.outcome.Ok? ==>
              var b := body(Begin(s, m)).after;
              && Stored(r.after, m) == r.outcome.value
              && !IsCacheDirty(r.after, m)
              && (forall n :: n != m ==> Stored(r.after, n) == Stored(b, n))
              && (forall n :: n != m ==> (IsCacheDirty(r.after, n) <==> IsCacheDirty(b, n)))
              && r.after.graph == b.graph && r.after.props == b.props && r.after.runs == b.runs
  {
    if !Truthy(Stored(s, m)) || IsCacheDirty(s, m) then
      var b := body(Begin(s, m));
      match b.outcome
      case Err(e) => b
      case Ok(v) =>
        var stored := b.after.(cache := b.after.cache[m := v]);
        Step(UnsetIsCacheDirty(stored, m), Ok(v))
    else
      Step(s, Ok(Stored(s, m)))
  }

  /** The body of a method that only reads tracked properties. */
  function Reading(eval: map<string, JsValue> -> Result<JsValue>): State -> Step {
    (st: State) => Step(st, eval(st.props))
  }

  /** A call of cached method `m` whose computation reads tracked properties
      only. A hit returns the stored value and changes nothing, the run count
      included. A miss runs the computation exactly once; on success its
      result is stored and only `m` leaves the dirty set; on failure the
      stored value and the dirty set are as before, so a later call retries.
      Other methods' stored values, dirty flags and run counts never change. */
  function Call(s: State, m: string, eval: map<string, JsValue> -> Result<JsValue>): (r: Step)
    ensures Hit(s, m) ==> r.after == s && r.outcome == Ok(Stored(s, m))
    ensures !Hit(s, m) ==> r.outcome == eval(s.props) && Runs(r.after, m) == Runs(s, m) + 1
    ensures !Hit(s, m) && eval(s.props).Ok? ==>
              Stored(r.after, m) == eval(s.props).value && !IsCacheDirty(r.after, m)
    ensures !Hit(s, m) && eval(s.props).Err? ==>
              Stored(r.after, m) == Stored(s, m) && r.after.dirty == s.dirty
    ensures forall n :: n != m ==>
              && Stored(r.after, n) == Stored(s, n)
              && (IsCacheDirty(r.after, n) <==> IsCacheDirty(s, n))
              && Runs(r.after, n) == Runs(s, n)
    ensures r.after.graph == s.graph && r.after.props == s.props
  {
    Invoke(s, m, Reading(eval))
  }

  /* ---------------- Properties across calls ---------------- */

  /** After a call that produced a truthy value, an immediate second call is
      a hit: same value, no further run. */
  lemma SecondCallHits(s: State, m: string, eval: map<string, JsValue> -> Result<JsValue>)
    requires Call(s, m, eval).outcome.Ok? && Truthy(Call(s, m, eval).outcome.value)
    ensures var r1 := Call(s, m, eval);
            Call(r1.after, m, eval) == Step(r1.after, r1.outcome)
  {
  }

  /** A falsy result is never reused: the next call runs the computation again. */
  lemma FalsyResultRecomputes(s: State, m: string, eval: map<string, JsValue> -> Result<JsValue>)
    requires !Hit(s, m)
    requires eval(s.props).Ok? && !Truthy(eval(s.props).value)
    ensures var r1 := Call(s, m, eval);
            Runs(Call(r1.after, m, eval).after, m) == Runs(s, m) + 2
  {
  }

  /** A failing computation is retried by every later call. */
  lemma FailureRetries(s: State, m: string, eval: map<string, JsValue> -> Result<JsValue>)
    requires !Hit(s, m)
    requires eval(s.props).Err?
    ensures var r1 := Call(s, m, eval);
            && !Hit(r1.after, m)
            && Runs(Call(r1.after, m, eval).after, m) == Runs(s, m) + 2
  {
  }

  /** `n` calls in a row of the same cached method. */
  function CallRepeatedly(s: State, m: string, eval: map<string, JsValue> -> Result<JsValue>, n: nat): State
    decreases n
  {
    if n == 0 then s else CallRepeatedly(Call(s, m, eval).after, m, eval, n - 1)
  }

  /** With no write in between, any number of calls runs a computation with a
      truthy result at most once: exactly once if the first call misses. */
  lemma {:induction false} RepeatedCallsRunOnce(s: State, m: string, eval: map<string, JsValue> -> Result<JsValue>, n: nat)
    requires n >= 1
    requires eval(s.props).Ok? && Truthy(eval(s.props).value)
    ensures Runs(CallRepeatedly(s, m, eval, n), m) == Runs(s, m) + (if Hit(s, m) then 0 else 1)
    ensures Hit(CallRepeatedly(s, m, eval, n), m)
    decreases n
  {
    var s1 := Call(s, m, eval).after;
    if n > 1 {
      RepeatedCallsRunOnce(s1, m, eval, n - 1);
    }
  }

  /** Writing a value equal to the current one keeps every hit a hit. */
  lemma EqualWriteKeepsHits(s: State, p: string, v: JsValue, m: string)
    requires StrictEq(Prop(s, p), v)
    requires Hit(s, m)
    ensures Hit(Write(s, p, v), m)
  {
  }

  /** Writing a different value makes every method reachable from the
      property miss on its next call, and leaves every other method's hit or
      miss as it was. */
  lemma ChangedWriteInvalidates(s: State, p: string, v: JsValue, m: string)
    requires !StrictEq(Prop(s, p), v)
    ensures Reaches(s.graph, p, m) ==> !Hit(Write(s, p, v), m)
    ensures !Reaches(s.graph, p, m) ==> (Hit(Write(s, p, v), m) <==> Hit(s, m))
  {
  }

  /** The wrapper clears the dirty flag after every successful run, even
      when a dependency was written while the computation was suspended: the
      result, computed from the old value, is then reused as if fresh. */
  lemma WriteDuringRunIsForgotten(s: State, m: string, p: string, v: JsValue)
    requires !Hit(s, m)
    requires Edge(s.graph, p, m)
    requires !StrictEq(Prop(s, p), v)
    ensures var body := (st: State) => Step(Write(st, p, v), Ok(Str("old")));
            var r := Invoke(s, m, body);
            && Reaches(s.graph, p, m)
            && r.outcome == Ok(Str("old"))
            && Prop(r.after, p) == v
            && Hit(r.after, m)
  {
    EdgeReaches(s.graph, p, m);
  }
}
