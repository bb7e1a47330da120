/**
 * The telemetry criterion (`TelemetryCriterion` in AllTelemetryCriterion.js):
 * its configuration, the per-datum computation, and the streaming
 * (`getResult`) and formatting (`formatData`) entry points, stated as pure
 * transitions of an immutable criterion value.
 */
module TelemetryCriterion {
  import opened Wrappers
  import opened Telemetry
  import opened Operations
  import opened Evaluator
  import opened ResultCache

  /** The `input` of a definition: an array of comparison values, or anything else. */
  datatype Input = Items(items: seq<Value>) | NotAnArray

  /**
   * The definition fields the criterion keeps. `mode` is the definition's
   * `telemetry` field ("all" or "any" when valid); a missing `metadata` or
   * `operation` is written as the empty string.
   */
  datatype Config = Config(id: string, mode: string, operation: string, input: Input, metadata: string)

  /** The collaborators the criterion consults but does not own. */
  datatype Env = Env(
    registry: seq<Operation>,            // OPERATIONS
    keyString: Identifier -> Key,        // openmct.objects.makeKeyString
    timeSystems: seq<string>             // the keys of openmct.time.getAllTimeSystems()
  )

  /** A criterion in use, or one that `destroy` has retired (its cache and sources deleted). */
  datatype Criterion =
    | Active(config: Config, sources: Sources, cache: Cache, result: Option<bool>)
    | Retired(config: Config, result: Option<bool>)

  /** Why an entry point fails instead of producing a value. */
  datatype Fault =
    | UseAfterDestroy   // the cache no longer exists: JavaScript throws a TypeError
    | FetchFailed       // a latest-value request rejected

  /** The datum `formatData` assembles: the aggregate plus the copied time-system fields. */
  datatype ResultDatum = ResultDatum(result: bool, stamps: map<string, Value>)

  /** `isValid()`: a known aggregation mode and both a field name and an operation name. */
  predicate IsValid(cfg: Config)
  {
    (cfg.mode == "any" || cfg.mode == "all") && cfg.metadata != "" && cfg.operation != ""
  }

  /** The argument list of the comparison: the datum's field, then the input values, if any. */
  function Params(cfg: Config, d: Datum): (p: seq<Value>)
    ensures |p| >= 1 && p[0] == Field(d, cfg.metadata)
    ensures cfg.input.Items? ==> p[1..] == cfg.input.items
    ensures cfg.input.NotAnArray? ==> |p| == 1
  {
    [Field(d, cfg.metadata)] + (if cfg.input.Items? && |cfg.input.items| > 0 then cfg.input.items else [])
  }

  /**
   * `computeResult(data)`: false for a missing datum or an unregistered
   * operation; otherwise the first registered operation of that name applied
   * to the parameter list.
   */
  function ComputeResult(registry: seq<Operation>, cfg: Config, data: Option<Datum>): (r: bool)
    ensures data.None? ==> !r
    ensures Unregistered(registry, cfg.operation) ==> !r
    ensures r <==> data.Some? && exists i :: FirstMatch(registry, cfg.operation, i)
                                           && registry[i].test(Params(cfg, data.value))
  {
    match data
    case None => false
    case Some(d) =>
      match FindOperation(registry, cfg.operation)
      case None => false
      case Some(test) => test(Params(cfg, d))
  }

  /** The cache write guarded by `if (data)`: the datum's own key gets its computed outcome. */
  function Record(registry: seq<Operation>, cfg: Config, cache: Cache, data: Option<Datum>): (r: Cache)
    ensures data.None? ==> r == cache
    ensures data.Some? ==> r.Keys == cache.Keys + {CacheKey(data.value)}
    ensures data.Some? ==> r[CacheKey(data.value)] == ComputeResult(registry, cfg, data)
    ensures forall k | k in cache && (data.None? || k != CacheKey(data.value)) :: r[k] == cache[k]
  {
    match data
    case None => cache
    case Some(d) => cache[CacheKey(d) := ComputeResult(registry, cfg, data)]
  }

  /** The cache update shared by `formatData` and `getResult`: record the datum, then backfill. */
  function Refresh(env: Env, cfg: Config, cache: Cache, data: Option<Datum>, sources: Sources): (r: Cache)
    ensures KnownKeys(env.keyString, sources) <= r.Keys
    ensures r.Keys == cache.Keys + KnownKeys(env.keyString, sources)
                      + (if data.Some? then {CacheKey(data.value)} else {})
    ensures data.Some? ==> r[CacheKey(data.value)] == ComputeResult(env.registry, cfg, data)
    ensures forall k | k in cache && (data.None? || k != CacheKey(data.value)) :: r[k] == cache[k]
    ensures forall k | k in r && k !in cache && (data.None? || k != CacheKey(data.value)) ::
              k in KnownKeys(env.keyString, sources) && !r[k]
  {
    Backfill(env.keyString, Record(env.registry, cfg, cache, data), sources)
  }

  /** The time-system fields copied from the triggering datum, `undefined` ones included. */
  function Stamps(timeSystems: seq<string>, d: Datum): (m: map<string, Value>)
    ensures forall i | 0 <= i < |timeSystems| :: timeSystems[i] in m
    ensures forall k | k in m :: k in timeSystems && m[k] == Field(d, k)
  {
    map k | k in timeSystems :: Field(d, k)
  }

  /**
   * `formatData(data, sources)`: refreshes the cache and returns the
   * aggregate over all cached outcomes, stamped with the datum's time-system
   * fields when there is a datum. The persisted `result` is left alone.
   */
  function FormatData(env: Env, c: Criterion, data: Option<Datum>, sources: Sources)
    : (r: Result<(Criterion, ResultDatum), Fault>)
    ensures r.Failure? <==> c.Retired?
    ensures r.Failure? ==> r.error == UseAfterDestroy
    ensures r.Success? ==> var (c', d) := r.value;
      && c'.Active? && c'.config == c.config && c'.sources == c.sources && c'.result == c.result
      && c'.cache == Refresh(env, c.config, c.cache, data, sources)
      && d.result == EvaluateResults(c'.cache.Values, c.config.mode)
      && (data.None? ==> d.stamps == map[])
      && (data.Some? ==> d.stamps.Keys == set k | k in env.timeSystems)
      && (data.Some? ==> forall k | k in d.stamps :: d.stamps[k] == Field(data.value, k))
  {
    match c
    case Retired(_, _) => Failure(UseAfterDestroy)
    case Active(cfg, _, cache, _) =>
      var cache' := Refresh(env, cfg, cache, data, sources);
      var stamps := if data.Some? then Stamps(env.timeSystems, data.value) else map[];
      Success((c.(cache := cache'), ResultDatum(EvaluateResults(cache'.Values, cfg.mode), stamps)))
  }

  /**
   * `getResult(data, sources)`: the streaming update. An invalid criterion
   * replaces the datum by `{}`; the refreshed cache's aggregate is persisted
   * as `result`, and nothing is returned.
   */
  function GetResult(env: Env, c: Criterion, data: Option<Datum>, sources: Sources): (r: Result<Criterion, Fault>)
    ensures r.Failure? <==> c.Retired?
    ensures r.Failure? ==> r.error == UseAfterDestroy
    ensures r.Success? ==>
      && r.value.Active? && r.value.config == c.config && r.value.sources == c.sources
      && r.value.result == Some(EvaluateResults(r.value.cache.Values, c.config.mode))
      && KnownKeys(env.keyString, sources) <= r.value.cache.Keys
    ensures r.Success? && IsValid(c.config) ==> r.value.cache == Refresh(env, c.config, c.cache, data, sources)
    ensures r.Success? && !IsValid(c.config) ==>
      && r.value.cache == Refresh(env, c.config, c.cache, Some(EmptyDatum), sources)
      && r.value.cache[AbsentKey] == ComputeResult(env.registry, c.config, Some(EmptyDatum))
  {
    match c
    case Retired(_, _) => Failure(UseAfterDestroy)
    case Active(cfg, _, cache, _) =>
      var validated := if IsValid(cfg) then data else Some(EmptyDatum);
      var cache' := Refresh(env, cfg, cache, validated, sources);
      Success(c.(cache := cache', result := Some(EvaluateResults(cache'.Values, cfg.mode))))
  }

  /** `updateTelemetry(sources)`: replaces the source map; the cache is not pruned. */
  function UpdateTelemetry(c: Criterion, sources: Sources): (r: Criterion)
    ensures r.config == c.config && r.result == c.result
    ensures c.Active? ==> r.Active? && r.sources == sources && r.cache == c.cache
    ensures c.Retired? ==> r == c
  {
    match c
    case Active(_, _, _, _) => c.(sources := sources)
    case Retired(_, _) => c
  }

  /** `destroy()`: the cache and source map are deleted; the configuration and `result` remain. */
  function Destroy(c: Criterion): (r: Criterion)
    ensures r.Retired? && r.config == c.config && r.result == c.result
  {
    Retired(c.config, c.result)
  }

  /** A freshly constructed criterion: empty cache and no result yet. */
  function Create(cfg: Config, sources: Sources): (c: Criterion)
    ensures c.Active? && c.config == cfg && c.sources == sources
    ensures c.cache == map[] && c.result == None
  {
    Active(cfg, sources, map[], None)
  }
}
