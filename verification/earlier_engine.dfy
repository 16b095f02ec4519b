/** The earlier engine (src/decorators.ts). Same design as the current one,
    but the dirty map holds booleans, registration builds the graph before
    it touches the descriptor, and the propagation and map building are
    loops here. Each operation is related to its current counterpart
    through `Current`, which reads the boolean map as the set of names
    flagged `true`. */
module EarlierEngine {
  import opened JsValues
  import opened DependencyGraph
  import Propagation
  import Engine

  datatype EarlierState = EarlierState(
    graph: Graph,                  // property name -> cache names
    flags: map<string, bool>,      // dirty flag per cache name
    props: map<string, JsValue>,   // tracked property values
    cache: map<string, JsValue>,   // stored result per cache name
    runs: map<string, nat>)        // how often each computation has run

  /** A key is flagged when present and `true`. */
  predicate Flagged(flags: map<string, bool>, key: string) {
    key in flags && flags[key]
  }

  /** `isDirtyMap ? isDirtyMap[key] : false`: an absent key reads as falsy. */
  predicate IsCacheDirty(s: EarlierState, key: string) {
    Flagged(s.flags, key)
  }

  /** The same state seen by the current engine. */
  function Current(s: EarlierState): (r: Engine.State)
    ensures forall k :: Engine.IsCacheDirty(r, k) <==> IsCacheDirty(s, k)
    ensures r.graph == s.graph && r.props == s.props && r.cache == s.cache && r.runs == s.runs
  {
    var dirty := set k | k in s.flags && s.flags[k];
    Engine.State(s.graph, dirty, s.props, s.cache, s.runs)
  }

  /** Flags `cacheName` dirty, creating the map entry if needed. */
  function InvalidateCache(flags: map<string, bool>, cacheName: string): (r: map<string, bool>)
    ensures Flagged(r, cacheName)
    ensures forall k :: k != cacheName ==> (Flagged(r, k) <==> Flagged(flags, k))
  {
    flags[cacheName := true]
  }

  /** Deletes the flag of `cacheName` if it is set; no other flag changes. */
  function CacheUpdated(flags: map<string, bool>, cacheName: string): (r: map<string, bool>)
    ensures !Flagged(r, cacheName)
    ensures forall k :: k != cacheName ==> (Flagged(r, k) <==> Flagged(flags, k))
    ensures !Flagged(flags, cacheName) ==> r == flags
  {
    if cacheName in flags && flags[cacheName] then flags - {cacheName} else flags
  }

  /** The loop of `buildPropertyCacheNameMap`: `cacheName` is appended to the
      list of every property in `properties`, absent lists being created;
      it is the same map the current engine builds. */
  method BuildPropertyCacheNameMap(g: Graph, properties: seq<string>, cacheName: string) returns (r: Graph)
    ensures forall k :: k in r <==> k in g || k in properties
    ensures forall k :: Succs(r, k) == Succs(g, k) + Repeat(cacheName, Count(properties, k))
    ensures r == AddDependents(g, properties, cacheName)
  {
    r := g;
    for i := 0 to |properties|
      invariant forall k :: k in r <==> k in g || k in properties[..i]
      invariant forall k :: Succs(r, k) == Succs(g, k) + Repeat(cacheName, Count(properties[..i], k))
    {
      var propertyName := properties[i];
      ghost var before := r;
      if propertyName !in r {
        r := r[propertyName := [cacheName]];
      } else {
        r := r[propertyName := r[propertyName] + [cacheName]];
      }
      assert properties[..i + 1] == properties[..i] + [propertyName];
      forall k ensures Succs(r, k) == Succs(g, k) + Repeat(cacheName, Count(properties[..i + 1], k)) {
        BuildKey(Succs(g, k), Succs(before, k), Succs(r, k), properties[..i], propertyName, cacheName, k);
      }
    }
    assert properties[..|properties|] == properties;
    SameGraph(r, AddDependents(g, properties, cacheName), g, properties, cacheName);
  }

  /** The list of one key `k` across one iteration of the loop. */
  lemma BuildKey(base: seq<string>, before: seq<string>, after: seq<string>,
                 done: seq<string>, propertyName: string, cacheName: string, k: string)
    requires before == base + Repeat(cacheName, Count(done, k))
    requires after == before + (if k == propertyName then [cacheName] else [])
    ensures after == base + Repeat(cacheName, Count(done + [propertyName], k))
  {
    CountSnoc(done, propertyName, k);
    RepeatSnoc(cacheName, Count(done, k));
  }

  /** Two graphs with the same keys and the same lists are equal. */
  lemma SameGraph(a: Graph, b: Graph, g: Graph, properties: seq<string>, cacheName: string)
    requires forall k :: k in a <==> k in g || k in properties
    requires forall k :: k in b <==> k in g || k in properties
    requires forall k :: Succs(a, k) == Succs(g, k) + Repeat(cacheName, Count(properties, k))
    requires forall k :: Succs(b, k) == Succs(g, k) + Repeat(cacheName, Count(properties, k))
    ensures a == b
  {
    forall k | k in a ensures a[k] == b[k] {
      assert Succs(a, k) == Succs(b, k);
    }
  }

  /** The propagation of `invalidateCaches` from `propertyName`, with a
      worklist and a visited set: every cache name reachable from
      `propertyName` is flagged dirty, and no other flag or field changes. */
  method InvalidateCaches(s: EarlierState, propertyName: string) returns (r: EarlierState)
    ensures forall k :: IsCacheDirty(r, k) <==> IsCacheDirty(s, k) || Reaches(s.graph, propertyName, k)
    ensures r.(flags := s.flags) == s
  {
    var g := s.graph;
    var flags := s.flags;
    var work := Succs(g, propertyName);
    var visited: set<string> := {};
    StartInWalk(g, propertyName);
    while work != []
      invariant InWalk(g, propertyName, visited, work)
      invariant FlagsAre(flags, s.flags, visited)
      decreases |Targets(g) - visited|, |work|
    {
      var x := work[0];
      WalkStep(g, propertyName, visited, work);
      if x in visited {
        work := work[1..];
      } else {
        Propagation.CardinalityShrinks(Targets(g), visited, x);
        FlagStep(flags, s.flags, visited, x);
        visited := visited + {x};
        flags := InvalidateCache(flags, x);
        work := Succs(g, x) + work[1..];
      }
    }
    WalkDone(g, propertyName, visited, work);
    r := s.(flags := flags);
    assert forall k :: IsCacheDirty(r, k) <==> Flagged(flags, k);
  }

  /** The flags are the original ones plus exactly the visited names. */
  ghost predicate FlagsAre(flags: map<string, bool>, base: map<string, bool>, visited: set<string>) {
    forall k :: Flagged(flags, k) <==> Flagged(base, k) || k in visited
  }

  lemma FlagStep(flags: map<string, bool>, base: map<string, bool>, visited: set<string>, x: string)
    requires FlagsAre(flags, base, visited)
    ensures FlagsAre(InvalidateCache(flags, x), base, visited + {x})
  {
  }

  /** The loop invariant of `InvalidateCaches`: everything seen is reachable
      from `p`, and every edge out of `p` or out of a visited name leads to a
      visited or a queued name. */
  ghost predicate InWalk(g: Graph, p: string, visited: set<string>, work: seq<string>) {
    && visited <= Targets(g)
    && (forall x :: x in work ==> x in Targets(g))
    && visited <= Reach(g, p)
    && (forall x :: x in work ==> x in Reach(g, p))
    && (forall x :: Edge(g, p, x) ==> x in visited || x in work)
    && Propagation.Frontier(g, visited, work)
  }

  lemma StartInWalk(g: Graph, p: string)
    ensures InWalk(g, p, {}, Succs(g, p))
  {
    forall x | x in Succs(g, p) ensures x in Reach(g, p) {
      EdgeReaches(g, p, x);
    }
  }

  lemma WalkStep(g: Graph, p: string, visited: set<string>, work: seq<string>)
    requires InWalk(g, p, visited, work) && work != []
    ensures work[0] in visited ==> InWalk(g, p, visited, work[1..])
    ensures work[0] !in visited ==> InWalk(g, p, visited + {work[0]}, Succs(g, work[0]) + work[1..])
    ensures work[0] in Targets(g)
  {
    var x := work[0];
    assert work == [x] + work[1..];
    if x !in visited {
      forall y | y in Succs(g, x) ensures y in Reach(g, p) {
        ReachesExtend(g, p, x, y);
      }
    }
  }

  lemma WalkDone(g: Graph, p: string, visited: set<string>, work: seq<string>)
    requires InWalk(g, p, visited, work) && work == []
    ensures forall k :: k in visited <==> Reaches(g, p, k)
  {
    ReachLeast(g, p, visited);
  }

  /** Applying `@cache(...fieldNames)` to member `key`: the names are added to
      the graph first; only then is the descriptor's value bound, which
      throws a `TypeError` unless it is a function. So a failed registration
      still leaves its edges behind. */
  method Register(s: EarlierState, key: string, fieldNames: seq<string>, d: Engine.Descriptor)
    returns (r: EarlierState, failure: Option<Error>)
    ensures failure.Some? <==> !Engine.DescriptorValue(d).Fun?
    ensures failure.Some? ==> failure.value == TypeError
    ensures r.(graph := s.graph) == s
    ensures forall k :: Succs(r.graph, k) == Succs(s.graph, k) + Repeat(key, Count(fieldNames, k))
    ensures failure.None? ==> Engine.Register(Current(s), key, fieldNames, d) == Ok(Current(r))
  {
    var g := BuildPropertyCacheNameMap(s.graph, fieldNames, key);
    r := s.(graph := g);
    if Engine.DescriptorValue(d).Fun? {
      failure := None;
    } else {
      failure := Some(TypeError);
    }
  }

  function Prop(s: EarlierState, p: string): JsValue {
    if p in s.props then s.props[p] else Undefined
  }

  /** The tracked setter: always stores `newValue`, and propagates from `key`
      when the value differs (`!==`); it ends where the current setter does. */
  method Write(s: EarlierState, key: string, newValue: JsValue) returns (r: EarlierState)
    ensures Prop(r, key) == newValue
    ensures forall k :: IsCacheDirty(r, k) <==>
              IsCacheDirty(s, k) || (!StrictEq(Prop(s, key), newValue) && Reaches(s.graph, key, k))
    ensures Current(r) == Engine.Write(Current(s), key, newValue)
  {
    r := s;
    if !StrictEq(Prop(s, key), newValue) {
      r := InvalidateCaches(s, key);
    }
    r := r.(props := r.props[key := newValue]);
    SameAsCurrent(r, Engine.Write(Current(s), key, newValue));
  }

  /** An earlier state and a current one that agree field by field, dirty
      flags read as a set, are the same state. */
  lemma SameAsCurrent(a: EarlierState, b: Engine.State)
    requires a.graph == b.graph && a.props == b.props && a.cache == b.cache && a.runs == b.runs
    requires forall k :: IsCacheDirty(a, k) <==> Engine.IsCacheDirty(b, k)
    ensures Current(a) == b
  {
    forall k ensures k in Current(a).dirty <==> k in b.dirty {
      assert Engine.IsCacheDirty(Current(a), k) <==> IsCacheDirty(a, k);
    }
  }

  datatype EarlierStep = EarlierStep(after: EarlierState, outcome: Result<JsValue>)

  function Stored(s: EarlierState, key: string): JsValue {
    if key in s.cache then s.cache[key] else Undefined
  }

  function Runs(s: EarlierState, key: string): nat {
    if key in s.runs then s.runs[key] else 0
  }

  /** The wrapper: recomputes when the stored value is falsy or the flag is
      set, storing the result and clearing that one flag; on failure nothing
      changes but the run count. It decides and ends as the current wrapper. */
  function Call(s: EarlierState, key: string, eval: map<string, JsValue> -> Result<JsValue>): (r: EarlierStep)
    ensures Truthy(Stored(s, key)) && !IsCacheDirty(s, key) ==> r == EarlierStep(s, Ok(Stored(s, key)))
    ensures Current(r.after) == Engine.Call(Current(s), key, eval).after
    ensures r.outcome == Engine.Call(Current(s), key, eval).outcome
  {
    if !Truthy(Stored(s, key)) || IsCacheDirty(s, key) then
      var started := s.(runs := s.runs[key := Runs(s, key) + 1]);
      match eval(started.props)
      case Err(e) => EarlierStep(started, Err(e))
      case Ok(v) =>
        EarlierStep(started.(cache := started.cache[key := v], flags := CacheUpdated(started.flags, key)), Ok(v))
    else
      EarlierStep(s, Ok(Stored(s, key)))
  }

  /** `@cache(...fieldNames)` on a getter in both versions: the current
      registration refuses with its configuration error and keeps the state
      as it was, while the earlier one throws a `TypeError` only after the
      key has been added to the list of the first field name. */
  method RegistrationOrderDiffers(s: EarlierState, key: string, fieldNames: seq<string>)
    returns (r: EarlierState, failure: Option<Error>)
    requires fieldNames != []
    ensures Engine.Register(Current(s), key, fieldNames, Engine.Accessor) == Err(ConfigError(Engine.InvalidDescriptor))
    ensures failure == Some(TypeError)
    ensures Succs(r.graph, fieldNames[0]) != Succs(s.graph, fieldNames[0])
  {
    r, failure := Register(s, key, fieldNames, Engine.Accessor);
    assert Count(fieldNames, fieldNames[0]) >= 1;
    assert |Succs(r.graph, fieldNames[0])| > |Succs(s.graph, fieldNames[0])|;
  }
}
