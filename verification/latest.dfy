/**
 * The latest-value query (`requestLAD`): one "latest" request per source,
 * joined all-or-nothing, folded into the cache in source order, with the
 * last source's datum handed to `formatData`.
 *
 * The requests themselves are not modelled: the caller supplies what each
 * request settled to, in the order of the sources' keys.
 */
module LatestQuery {
  import opened Wrappers
  import opened Telemetry
  import opened Operations
  import opened Evaluator
  import opened ResultCache
  import opened TelemetryCriterion

  /** How one latest-value request settled. */
  datatype Fetch = Fetched(data: seq<Datum>) | FetchRejected

  /** What `requestLAD` produces. */
  datatype LadReply =
    | Bare(datum: ResultDatum)                // invalid criterion: the formatted datum itself, no request made
    | Resolved(id: string, data: ResultDatum) // the promise resolves with `{id, data}`
    | Rejected(fault: Fault)                  // the promise rejects (or, when retired, the call throws)

  /** The datum a settled request contributes: its last sample, or `{}` when it returned none. */
  function LatestOf(samples: seq<Datum>): (d: Datum)
    ensures |samples| == 0 ==> d == EmptyDatum
    ensures |samples| > 0 ==> d == samples[|samples| - 1]
  {
    if |samples| > 0 then samples[|samples| - 1] else EmptyDatum
  }

  /** Some request rejected. */
  ghost predicate AnyRejected(fetched: seq<Fetch>)
  {
    exists i | 0 <= i < |fetched| :: fetched[i].FetchRejected?
  }

  /** The join of all requests: every source's latest datum, or `None` as soon as one rejected. */
  function Latests(fetched: seq<Fetch>): (r: Option<seq<Datum>>)
    ensures r.None? <==> AnyRejected(fetched)
    ensures r.Some? ==> |r.value| == |fetched|
    ensures r.Some? ==> forall i | 0 <= i < |fetched| :: r.value[i] == LatestOf(fetched[i].data)
    decreases |fetched|
  {
    if |fetched| == 0 then Some([])
    else match fetched[0]
      case FetchRejected => None
      case Fetched(samples) =>
        match Latests(fetched[1..])
        case None => None
        case Some(rest) => Some([LatestOf(samples)] + rest)
  }

  /** The cache keys the data are stored under. */
  ghost function KeysOf(ds: seq<Datum>): set<Key>
  {
    set i | 0 <= i < |ds| :: CacheKey(ds[i])
  }

  /**
   * The cache after recording each datum in turn, first to last: exactly the
   * data's keys are added, and no key is removed.
   */
  function FoldRecord(registry: seq<Operation>, cfg: Config, cache: Cache, ds: seq<Datum>): (r: Cache)
    ensures r.Keys == cache.Keys + KeysOf(ds)
    decreases |ds|
  {
    if |ds| == 0 then cache
    else
      assert KeysOf(ds) == {CacheKey(ds[0])} + KeysOf(ds[1..]) by {
        forall x | x in KeysOf(ds) ensures x in {CacheKey(ds[0])} + KeysOf(ds[1..]) {
          var i :| 0 <= i < |ds| && CacheKey(ds[i]) == x;
          if i > 0 {
            assert ds[1..][i - 1] == ds[i];
          }
        }
        forall x | x in KeysOf(ds[1..]) ensures x in KeysOf(ds) {
          var i :| 0 <= i < |ds[1..]| && CacheKey(ds[1..][i]) == x;
          assert ds[i + 1] == ds[1..][i];
        }
      }
      FoldRecord(registry, cfg, Record(registry, cfg, cache, Some(ds[0])), ds[1..])
  }

  /**
   * `requestLAD(options)` with `options.telemetryObjects` = `sources` and
   * `fetched[i]` the settled request for `sources[i]`. The query never
   * changes the persisted `result`.
   */
  function RequestLAD(env: Env, c: Criterion, sources: Sources, fetched: seq<Fetch>): (r: (Criterion, LadReply))
    requires |fetched| == |sources|
    ensures r.0.config == c.config && r.0.result == c.result
    ensures c.Active? ==> r.0.Active? && r.0.sources == c.sources
    ensures c.Retired? ==> r.1.Rejected? && r.0 == c
    ensures !IsValid(c.config) && c.Active? ==>
      r.1.Bare? && FormatData(env, c, Some(EmptyDatum), sources) == Success((r.0, r.1.datum))
    ensures IsValid(c.config) && AnyRejected(fetched) ==> r == (c, Rejected(FetchFailed))
    ensures IsValid(c.config) && c.Active? && !AnyRejected(fetched) ==>
      && r.1.Resolved? && r.1.id == c.config.id && r.0.Active?
      && r.1.data.result == EvaluateResults(r.0.cache.Values, c.config.mode)
      && KnownKeys(env.keyString, sources) <= r.0.cache.Keys
    ensures IsValid(c.config) && c.Active? && |sources| == 0 ==>
      r == (c, Resolved(c.config.id, ResultDatum(EvaluateResults(c.cache.Values, c.config.mode), map[])))
  {
    if !IsValid(c.config) then
      match FormatData(env, c, Some(EmptyDatum), sources)
      case Failure(f) => (c, Rejected(f))
      case Success(formatted) => (formatted.0, Bare(formatted.1))
    else
      match Latests(fetched)
      case None => (c, Rejected(FetchFailed))
      case Some(latest) =>
        match c
        case Retired(_, _) => (c, Rejected(UseAfterDestroy))
        case Active(cfg, _, cache, _) =>
          var last := if |latest| == 0 then None else Some(latest[|latest| - 1]);
          var before := if |latest| == 0 then [] else latest[..|latest| - 1];
          var primed := c.(cache := FoldRecord(env.registry, cfg, cache, before));
          var formatted := FormatData(env, primed, last, sources).value;
          (formatted.0, Resolved(cfg.id, formatted.1))
  }
}
