# caching-decorators — a Dafny model of the memoization engine

The library provides two TypeScript decorators:

- `@tracked` turns a class field into a property whose setter notices changes.
- `@cache(...deps)` memoizes an async method. It returns the stored result until one of the names in `deps` changes. A name in `deps` is a tracked property or another cached method.

The engine behind them keeps three things per class:

- a **dependency graph**: each name maps to the cached methods that listed it;
- a **dirty set** of stale methods;
- the stored values.

A tracked write that changes the value marks every method reachable from the property in the graph as dirty. A cached call recomputes when its stored value is falsy or the method is dirty. Otherwise it returns the stored value.

The model has seven modules:

- `JsValues`: the JavaScript values involved, truthiness (`!x`), strict equality (`===`) and the completions of a call.
- `DependencyGraph`: the graph as `map<string, seq<string>>`; registration (`buildDependencies`); and reachability by one or more edges (`Reaches`, `Reach`), which serves as the specification of invalidation.
- `Propagation`: invalidation as a worklist walk with a visited set, proved equal to "old dirty set plus everything reachable".
- `RecursiveWalk`: invalidation as the source writes it, as recursion with no visited set. A depth bound stands in for the call stack. It finishes exactly when no cycle is reachable, and then it marks what `Propagation` marks.
- `Engine`: the current engine (src/index.ts). It has the registration, the tracked setter and the cached-method wrapper, as pure transitions on one `State`.
- `EarlierEngine`: the earlier engine (src/decorators.ts). Here the dirty map holds booleans. Its `invalidateCaches` is the same unguarded recursion as the current `setDirtyStates`; the model replaces it with the corrected worklist loop. Every operation that succeeds is proved to end in the same state as its counterpart in `Engine`. A failed registration is the exception: `EarlierEngine.RegistrationOrderDiffers` shows that the earlier version keeps the edges.
- `Scenarios`: the behaviour test/decorators.test.ts checks, replayed on `Engine` for a class with `input1`, `input2`, `hashAlgorithm`, `concatInputs` (depends on the two inputs) and `hashInputs` (depends on `concatInputs` and `hashAlgorithm`).

State is per class in the source, not per instance. The graph and the dirty map are keyed by the prototype, and the property value and the cached value are closure variables of the decorator. So one `State` stands for one decorated class, and all its instances share it.

## Model

| member | source | states |
|---|---|---|
| DependencyGraph.AddDependent | src/index.ts:61-67 | `m` is appended to the end of the list of `d`, which is created when absent. Every other key keeps its list, and the key set grows by `d` only. |
| DependencyGraph.AddDependents | src/index.ts:58-68 | Registering `m` for `deps` appends one trailing copy of `m` to each key per occurrence of the key in `deps`. Keys are created exactly for the names in `deps`. All other lists are unchanged. |
| Propagation.Close | src/index.ts:108-134 | The worklist walk keeps the visited names and queued work within the walk's result, and the result within the graph's targets. When every edge out of the visited names is covered, the result is closed under edges. |
| Propagation.CloseIsReach | src/index.ts:108-117 | Starting from the direct dependents of `p` with nothing visited, the walk collects exactly the names reachable from `p` by one or more edges. |
| Propagation.Propagate | src/index.ts:108-134 | The new dirty set is the old one plus exactly the names reachable from `p`. Unreachable names keep their status. `p` itself becomes dirty only when it lies on a cycle. |
| Propagation.PropagateIdempotent | src/index.ts:108-134 | Marking from the same name twice adds nothing to marking once. |
| RecursiveWalk.WalkFrom | src/index.ts:108-117 | The source's recursion from a name only ever adds to the dirty set. |
| RecursiveWalk.WalkEach | src/index.ts:111-116 | When the loop over a list of dependents returns, the old marks are kept and every listed dependent is marked. |
| RecursiveWalk.WalkFromMarks | src/index.ts:108-117 | When the recursion from a name returns within the stack depth, it has added exactly the names reachable from it. |
| RecursiveWalk.WalkEachMarks | src/index.ts:111-116 | When the loop over a list of dependents returns, it has added exactly the listed dependents and everything each reaches. |
| RecursiveWalk.WalkDiverges | src/index.ts:108-117 | If a cycle is reachable from the start, the recursion fails to return at every stack depth. |
| RecursiveWalk.WalkTerminates | src/index.ts:108-117 | If no cycle is reachable, a stack deeper than the number of reachable names is enough for the recursion to return. It then marks the old dirty set plus exactly the reachable names, which is what `Propagation.Propagate` returns. |
| RecursiveWalk.WalkReturnsIffCycleFree | src/index.ts:108-117 | The recursion returns at some stack depth if and only if no cycle is reachable from the start. |
| RecursiveWalk.SelfDependencyOverflows | src/index.ts:108-117 | Take a method listing itself as a dependency, behind a tracked property. The recursion from the property never returns, while `Propagate` marks just the method. |
| Engine.UnsetIsCacheDirty | src/index.ts:82-88 | Only the given method leaves the dirty set. Every other status and every other field is unchanged. Clearing a method that is not dirty changes nothing. |
| Engine.UpdateDirtyStates | src/index.ts:31-34 | A method is dirty afterwards if and only if it was dirty before or is reachable from the property. Nothing but the dirty set changes. |
| Engine.Register | src/index.ts:172-176 | Registration fails with the fixed configuration error, changing nothing, exactly when the descriptor's value is not a function (a getter, a field, a plain value). Otherwise it only appends the method to each dependency's list, as `AddDependents` does. |
| Engine.Write | src/index.ts:150-155 | The new value is always stored and no other property changes. An equal (`===`) value leaves the dirty set untouched. A different one adds exactly the names reachable from the property. Graph, stored values and run counts are unchanged. |
| Engine.WriteMatchesRecursion | src/index.ts:150-155 | When no cycle is reachable from the property, the source's recursive invalidation returns, given a stack deeper than the number of reachable names, and marks exactly the dirty set `Write` produces for a changed value. |
| Engine.Invoke | src/index.ts:179-186 | A hit (truthy stored value, not dirty) returns the stored value and runs nothing. A miss runs the body once. On success the result is stored and only that method's dirty flag is cleared, in the state the body left. On failure the body's outcome and state pass through unchanged. |
| Engine.Call | src/index.ts:179-186 | For a computation that only reads properties: a hit changes nothing and a miss runs it exactly once. On success the result is stored and the method is clean. On failure the stored value and dirty set are as before. Other methods' values, flags and counts never change. |
| Engine.SecondCallHits | src/index.ts:180-185 | After a call that produced a truthy value, an immediate second call returns the same value without running. |
| Engine.FalsyResultRecomputes | src/index.ts:180-183 | A falsy result (`0`, `''`, `false`, …) is not reused: the next call runs the computation again. |
| Engine.FailureRetries | src/index.ts:180-183 | After a failed computation the method still misses, and the next call runs it again. |
| Engine.RepeatedCallsRunOnce | src/index.ts:179-186 | With no write in between, any number of calls of a method with a truthy result runs it exactly once if the first call misses, and never if it hits. Afterwards it hits. |
| Engine.EqualWriteKeepsHits | src/index.ts:150-155 | Writing a value equal to the current one keeps every hit a hit. |
| Engine.ChangedWriteInvalidates | src/index.ts:150-155 | Writing a different value makes every method reachable from the property miss. Every other method's hit or miss is unchanged. |
| Engine.WriteDuringRunIsForgotten | src/index.ts:181-182 | A dependency written while the computation is suspended is forgotten: the old result is stored and the method is clean and hits. |
| EarlierEngine.Current | src/decorators.ts:12-16 | A name is dirty in the current engine's view exactly when its flag is present and `true`. An absent key reads as clean. |
| EarlierEngine.InvalidateCache | src/decorators.ts:18-29 | The given name becomes flagged, with the entry created when absent. No other flag changes. |
| EarlierEngine.CacheUpdated | src/decorators.ts:31-37 | Only the given flag is removed. Removing a flag that is not set leaves the map as it was. |
| EarlierEngine.BuildPropertyCacheNameMap | src/decorators.ts:50-61 | `cacheName` is appended once per occurrence to the list of every property given, with absent lists created and other keys untouched. It is the same map `DependencyGraph.AddDependents` builds. |
| EarlierEngine.InvalidateCaches | src/decorators.ts:63-77 | A cache name is flagged afterwards if and only if it was flagged before or is reachable from the property. Nothing but the flags changes. |
| EarlierEngine.Register | src/decorators.ts:82-89 | The edges are always added, and a `TypeError` follows exactly when the descriptor's value is not a function. On success the result is what the current registration produces. |
| EarlierEngine.Write | src/decorators.ts:110-115 | The new value is always stored. The caches reachable from the property are flagged exactly when the value differs. It ends in the state the current setter ends in. |
| EarlierEngine.Call | src/decorators.ts:91-97 | A truthy, unflagged stored value is returned with nothing changed. For a computation that only reads properties, the outcome and the resulting state are those of the current wrapper. |
| EarlierEngine.RegistrationOrderDiffers | src/decorators.ts:82-89 | On a getter with at least one dependency, the current registration fails with the configuration error and changes nothing. The earlier one fails with a `TypeError` but has already added the method to the first dependency's list. |
| Scenarios.DeclaredGraph | test/decorators.test.ts:26-36 | The two `@cache` registrations of the test class succeed and give each input the list `[concatInputs]`, and `concatInputs` and `hashAlgorithm` the list `[hashInputs]`. |
| Scenarios.ReachAlg | test/decorators.test.ts:91-97 | In that graph only `hashInputs` is reachable from `hashAlgorithm`. |
| Scenarios.ReachInput | test/decorators.test.ts:106-112 | From either input, exactly `concatInputs` and `hashInputs` are reachable. |
| Scenarios.Started | test/decorators.test.ts:15-24 | After declaration, the field initialisers and the constructor, the inputs hold their constructor values, both methods are dirty, nothing is stored and nothing has run. |
| Scenarios.WriteAlgorithm | test/decorators.test.ts:93 | A new `hashAlgorithm` dirties `hashInputs` only. |
| Scenarios.WriteInput1 | test/decorators.test.ts:58 | A new `input1` dirties both methods. |
| Scenarios.SecondCallIsCached | test/decorators.test.ts:45-56 | The first `concatInputs` call runs once and returns the concatenation. The second returns it again without running. |
| Scenarios.InputWriteRecomputesOnce | test/decorators.test.ts:58-66 | After a new `input1`, `concatInputs` runs once more and returns the new concatenation. The call after that is a hit. |
| Scenarios.NextTestStart | test/decorators.test.ts:15-24 | The class state is shared between tests. Constructing a new instance after an earlier test writes the field initialisers and the constructor arguments. Whatever the earlier test left stored, both methods end dirty and the inputs hold `'input1'` and `'input2'`, with the run counters unchanged. |
| Scenarios.HashReusesCleanConcat | test/decorators.test.ts:69-89 | From both methods dirty and any earlier run counts, one `concatInputs` call runs it once. Then `hashInputs` runs once, reuses the clean concatenation without running it again, and returns its digest. A second `hashInputs` call is a hit. Each counter ends exactly one higher. |
| Scenarios.AlgorithmWriteDirtiesHashOnly | test/decorators.test.ts:91-103 | From both methods clean, after a new algorithm only `hashInputs` is dirty. It reruns once with the new algorithm while `concatInputs` does not run, and the call after that is a hit. Only the `hashInputs` counter goes up, by one. |
| Scenarios.InputWriteDirtiesBoth | test/decorators.test.ts:105-112 | From both methods clean, after a new `input1` both methods are dirty, and one `hashInputs` call runs each exactly once more and digests the new concatenation. |
| Scenarios.GetterIsRejected | test/decorators.test.ts:116-133 | `@cache()` on a getter fails at declaration with the configuration error. |

## Left out

- Promises and `async`/`await`. A call is one atomic step whose body sees the state when it starts and returns the state when it ends. The source has no single-flight guard, so two overlapping calls would both compute. Only the interleaving `Engine.WriteDuringRunIsForgotten` describes is modelled.
- Clearing the dirty flag after a run. The source clears it unconditionally once the computation returns, even if a dependency changed meanwhile. The model follows the code, not the intent that a stale flag should survive.
- Per-instance isolation. The tests at test/decorators.test.ts:156-229 expect separate instances to keep separate caches, but the source shares one state per class. The model does not claim isolation.
- `Object.defineProperty`, descriptor mutation, `this`/`bind` and `WeakMap` retention are host-language plumbing. The registries a `WeakMap` creates lazily are modelled as empty maps from the start, which read the same, since an absent dirty map reads as "not dirty".
- Keys inherited from `Object.prototype`. The source's plain-object maps would misread a dependency or method named, for example, `toString`. The model's maps hold only what was put in them.
- The call stack. `RecursiveWalk` counts stack depth as `fuel` and reports only "did not return". The `RangeError` itself, and the partial marking done before it, are not modelled.
- Engine.Write, Engine.UpdateDirtyStates, Engine.ChangedWriteInvalidates, EarlierEngine.Write, EarlierEngine.InvalidateCaches: these model the corrected walk, which marks each reachable method once. When no cycle is reachable this is what the source's recursion does (`Engine.WriteMatchesRecursion`). When a cycle is reachable the source's setter marks some methods and then throws a `RangeError` before the new value is stored; these members do not promise that outcome (see "## Findings").
- Numbers are reals plus a separate `NaN`. `+Infinity` and `-Infinity` cannot be represented. `BigInt`, symbols and the distinction between `+0` and `-0` are left out, because `===` does not distinguish `+0` and `-0` anyway.
- The crypto digest in the tests is replaced by `Scenarios.Digest`, a stand-in string that keeps the algorithm and the input apart. The sinon spies are replaced by the run counters in the state. These counters are never reset. The tests share one class state, so `Scenarios` states counts as increments over arbitrary starting counts, which matches the spies whether or not they were reset in between.
- src/utils.ts is an example consumer that wires an event emitter and logs to the console. It is not part of this model.
- The test at test/decorators.test.ts:135-155 (reading an untracked field inside a cached method) has no engine logic beyond what `Engine.Call` states.
- Scenarios.SecondCallIsCached: requires a non-empty first input. The test's `'input1'` meets this. With an empty concatenation the stored value would be falsy and the second call would recompute.
- Scenarios.InputWriteRecomputesOnce: requires the new `input1` to be non-empty, for the same reason. The test writes `'new'`.
- Scenarios.HashReusesCleanConcat: requires a non-empty concatenation of the inputs, for the same reason. The test's inputs meet this.
- Scenarios.NextTestStart: requires both inputs to be non-empty when the earlier test ends, so that the initialisers' `''` writes are changes. The first test ends with `'new'` and `'input2'`.
- Scenarios.AlgorithmWriteDirtiesHashOnly: requires a non-empty concatenation of the inputs, for the same reason. The test's inputs meet this.

## Findings

| source | as written | input that shows it | evidently intended | confidence | as-written member | corrected member |
|---|---|---|---|---|---|---|
| src/index.ts:108-117 (and src/decorators.ts:63-72) | Invalidation recurses into every dependent with no visited set. | A method decorated `@cache('p', 'm')` named `m`, so it depends on itself, behind a tracked `p`. Writing a new value to `p` recurses `m` → `m` → … until the stack overflows. The write throws before the value is stored. Any dependency cycle does the same. | Mark each reachable method once: the old dirty set plus everything reachable from `p`, on every graph. | not executed | RecursiveWalk.SelfDependencyOverflows, RecursiveWalk.WalkReturnsIffCycleFree | Propagation.Propagate |
