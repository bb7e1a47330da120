/**
 * Properties of the criterion that relate several calls: the agreement of
 * the streaming and formatting paths, what an invalid configuration ignores,
 * the stale entries `updateTelemetry` leaves behind, and the fold performed
 * by the latest-value query.
 */
module CriterionProperties {
  import opened Wrappers
  import opened Telemetry
  import opened Operations
  import opened Evaluator
  import opened ResultCache
  import opened TelemetryCriterion
  import opened LatestQuery

  /** `{}` is not a missing datum: the operation still runs, on `[undefined, ...input]`. */
  lemma EmptyDatumStillCompared(registry: seq<Operation>, cfg: Config, i: nat)
    requires FirstMatch(registry, cfg.operation, i)
    ensures ComputeResult(registry, cfg, Some(EmptyDatum))
            == registry[i].test([Undefined] + (if cfg.input.Items? then cfg.input.items else []))
  {
    var p := Params(cfg, EmptyDatum);
    assert p == [Undefined] + (if cfg.input.Items? then cfg.input.items else []);
    if ComputeResult(registry, cfg, Some(EmptyDatum)) {
      var j :| FirstMatch(registry, cfg.operation, j) && registry[j].test(p);
      assert j == i;
    }
  }

  /**
   * For a valid criterion the two paths refresh the cache identically; the
   * streaming path persists the aggregate that the formatting path only returns.
   */
  lemma PathsAgree(env: Env, c: Criterion, data: Option<Datum>, sources: Sources)
    requires c.Active? && IsValid(c.config)
    ensures GetResult(env, c, data, sources).Success? && FormatData(env, c, data, sources).Success?
    ensures GetResult(env, c, data, sources).value.cache == FormatData(env, c, data, sources).value.0.cache
    ensures GetResult(env, c, data, sources).value.result == Some(FormatData(env, c, data, sources).value.1.result)
    ensures FormatData(env, c, data, sources).value.0.result == c.result
  {
  }

  /** An invalid criterion's streaming update does not depend on the datum supplied. */
  lemma InvalidIgnoresData(env: Env, c: Criterion, d1: Option<Datum>, d2: Option<Datum>, sources: Sources)
    requires !IsValid(c.config)
    ensures GetResult(env, c, d1, sources) == GetResult(env, c, d2, sources)
  {
  }

  /** An invalid criterion's latest-value query makes no use of any request. */
  lemma InvalidQueryFetchesNothing(env: Env, c: Criterion, sources: Sources, f1: seq<Fetch>, f2: seq<Fetch>)
    requires !IsValid(c.config)
    requires |f1| == |sources| && |f2| == |sources|
    ensures RequestLAD(env, c, sources, f1) == RequestLAD(env, c, sources, f2)
  {
  }

  /**
   * After `updateTelemetry`, a cached `false` outcome survives whether or not
   * its source is still among the new sources, and keeps an "all"
   * criterion's aggregate false.
   */
  lemma StaleEntryStillCounts(env: Env, c: Criterion, newSources: Sources, data: Option<Datum>, k: Key)
    requires c.Active? && IsValid(c.config) && c.config.mode == "all"
    requires k in c.cache && !c.cache[k]
    requires data.None? || CacheKey(data.value) != k
    ensures GetResult(env, UpdateTelemetry(c, newSources), data, newSources).value.result == Some(false)
  {
    var c' := GetResult(env, UpdateTelemetry(c, newSources), data, newSources).value;
    assert c'.cache[k] == false;
    AllMeansEvery(c'.cache);
  }

  /**
   * Two sources, one whose datum satisfies the operation and one whose datum
   * does not: after both stream in, "all" fails and "any" holds, whatever
   * else is cached and whichever sources are given.
   */
  lemma AllVersusAny(env: Env, c: Criterion, sources: Sources, a: Datum, b: Datum, i: nat)
    requires c.Active? && IsValid(c.config)
    requires CacheKey(a) != CacheKey(b)
    requires FirstMatch(env.registry, c.config.operation, i)
    requires env.registry[i].test(Params(c.config, a)) && !env.registry[i].test(Params(c.config, b))
    ensures GetResult(env, c, Some(a), sources).Success?
    ensures GetResult(env, GetResult(env, c, Some(a), sources).value, Some(b), sources).Success?
    ensures var after := GetResult(env, GetResult(env, c, Some(a), sources).value, Some(b), sources).value;
      after.result == Some(c.config.mode == "any")
  {
    var first := GetResult(env, c, Some(a), sources).value;
    var after := GetResult(env, first, Some(b), sources).value;
    assert after.cache[CacheKey(a)] && !after.cache[CacheKey(b)];
    assert true in after.cache.Values && false in after.cache.Values;
  }

  /** Recording one more datum after a fold is the fold over the longer sequence. */
  lemma {:induction false} FoldRecordSnoc(registry: seq<Operation>, cfg: Config, cache: Cache, ds: seq<Datum>, d: Datum)
    ensures FoldRecord(registry, cfg, cache, ds + [d])
            == Record(registry, cfg, FoldRecord(registry, cfg, cache, ds), Some(d))
    decreases |ds|
  {
    if |ds| == 0 {
      assert ds + [d] == [d];
      assert [d][1..] == [];
    } else {
      var next := Record(registry, cfg, cache, Some(ds[0]));
      assert (ds + [d])[0] == ds[0];
      assert (ds + [d])[1..] == ds[1..] + [d];
      FoldRecordSnoc(registry, cfg, next, ds[1..], d);
    }
  }

  /** After the fold, a key that no datum is stored under keeps its previous state. */
  lemma {:induction false} FoldRecordKeepsUnnamed(registry: seq<Operation>, cfg: Config, cache: Cache, ds: seq<Datum>, k: Key)
    requires forall i | 0 <= i < |ds| :: CacheKey(ds[i]) != k
    ensures k in FoldRecord(registry, cfg, cache, ds) <==> k in cache
    ensures k in cache ==> FoldRecord(registry, cfg, cache, ds)[k] == cache[k]
    decreases |ds|
  {
    if |ds| > 0 {
      var n := |ds| - 1;
      assert ds == ds[..n] + [ds[n]];
      FoldRecordSnoc(registry, cfg, cache, ds[..n], ds[n]);
      FoldRecordKeepsUnnamed(registry, cfg, cache, ds[..n], k);
    }
  }

  /** After the fold, a key holds the outcome of the last datum stored under it. */
  lemma {:induction false} FoldRecordLastWins(registry: seq<Operation>, cfg: Config, cache: Cache, ds: seq<Datum>, i: nat)
    requires i < |ds|
    requires forall j | i < j < |ds| :: CacheKey(ds[j]) != CacheKey(ds[i])
    ensures CacheKey(ds[i]) in FoldRecord(registry, cfg, cache, ds)
    ensures FoldRecord(registry, cfg, cache, ds)[CacheKey(ds[i])] == ComputeResult(registry, cfg, Some(ds[i]))
    decreases |ds|
  {
    var n := |ds| - 1;
    var init := ds[..n];
    assert ds == init + [ds[n]];
    FoldRecordSnoc(registry, cfg, cache, init, ds[n]);
    if i < n {
      assert init[i] == ds[i];
      FoldRecordLastWins(registry, cfg, cache, init, i);
    }
  }

  /**
   * A valid query whose requests all succeed leaves the cache as if every
   * source's latest datum had been recorded in source order and the sources
   * then backfilled: applying all but the last beforehand and the last inside
   * `formatData` changes nothing.
   */
  lemma LadFoldsEveryLatest(env: Env, c: Criterion, sources: Sources, fetched: seq<Fetch>)
    requires |fetched| == |sources|
    requires c.Active? && IsValid(c.config) && !AnyRejected(fetched)
    ensures Latests(fetched).Some?
    ensures RequestLAD(env, c, sources, fetched).0.cache
            == Backfill(env.keyString, FoldRecord(env.registry, c.config, c.cache, Latests(fetched).value), sources)
  {
    var latest := Latests(fetched).value;
    var cache' := RequestLAD(env, c, sources, fetched).0.cache;
    if |latest| == 0 {
      assert cache' == Refresh(env, c.config, c.cache, None, sources);
    } else {
      var n := |latest| - 1;
      var primed := FoldRecord(env.registry, c.config, c.cache, latest[..n]);
      assert cache' == Refresh(env, c.config, primed, Some(latest[n]), sources);
      assert latest == latest[..n] + [latest[n]];
      FoldRecordSnoc(env.registry, c.config, c.cache, latest[..n], latest[n]);
    }
  }

  /**
   * The aggregate a valid query returns is stamped with the time-system
   * fields of the last source's latest datum.
   */
  lemma LadStampsLastSource(env: Env, c: Criterion, sources: Sources, fetched: seq<Fetch>)
    requires |fetched| == |sources| && |sources| > 0
    requires c.Active? && IsValid(c.config) && !AnyRejected(fetched)
    ensures var reply := RequestLAD(env, c, sources, fetched).1;
      && reply.Resolved?
      && reply.data.stamps.Keys == set k | k in env.timeSystems
      && forall k | k in reply.data.stamps ::
           reply.data.stamps[k] == Field(LatestOf(fetched[|fetched| - 1].data), k)
  {
  }

  /** Zero sources under "all" with nothing cached: the query resolves to true without stamps. */
  lemma VacuousTruth(env: Env, c: Criterion)
    requires c.Active? && IsValid(c.config) && c.config.mode == "all" && c.cache == map[]
    ensures RequestLAD(env, c, [], []) == (c, Resolved(c.config.id, ResultDatum(true, map[])))
  {
  }

  /** Every outcome in the cache is false. */
  ghost predicate AllFalse(cache: Cache)
  {
    forall k | k in cache :: !cache[k]
  }

  /**
   * A criterion with no operation name records only false outcomes: every
   * entry point that writes the cache (a streaming update, a formatting call
   * and a latest-value query) keeps an all-false cache all false, whatever
   * the datum or the requests. A new criterion starts with an empty cache, so
   * every cache such a criterion reaches is all false.
   */
  lemma MissingOperationKeepsCacheFalse(env: Env, c: Criterion, data: Option<Datum>, sources: Sources, fetched: seq<Fetch>)
    requires |fetched| == |sources|
    requires c.Active? && c.config.operation == "" && Unregistered(env.registry, "") && AllFalse(c.cache)
    ensures GetResult(env, c, data, sources).Success?
    ensures AllFalse(GetResult(env, c, data, sources).value.cache)
    ensures FormatData(env, c, data, sources).Success?
    ensures AllFalse(FormatData(env, c, data, sources).value.0.cache)
    ensures AllFalse(RequestLAD(env, c, sources, fetched).0.cache)
  {
  }

  /**
   * Under mode "all" or "any", a streaming update of a criterion with no
   * operation name and an all-false cache persists false.
   */
  lemma MissingOperationStaysFalse(env: Env, c: Criterion, data: Option<Datum>, sources: Sources)
    requires c.Active? && c.config.operation == "" && Unregistered(env.registry, "") && AllFalse(c.cache)
    requires c.config.mode == "all" || c.config.mode == "any"
    ensures GetResult(env, c, data, sources).Success?
    ensures GetResult(env, c, data, sources).value.result == Some(false)
  {
    var c' := GetResult(env, c, data, sources).value;
    assert AllFalse(c'.cache);
    assert true !in c'.cache.Values;
  }

  /**
   * Under mode "all" or "any", a criterion with no operation name and an
   * all-false cache answers a query at once with false: `{}` is recorded as
   * false under the absent key and every source is backfilled with false.
   */
  lemma MissingOperationAnswersFalse(env: Env, c: Criterion, sources: Sources, fetched: seq<Fetch>)
    requires |fetched| == |sources|
    requires c.Active? && c.config.operation == "" && Unregistered(env.registry, "") && AllFalse(c.cache)
    requires c.config.mode == "all" || c.config.mode == "any"
    ensures RequestLAD(env, c, sources, fetched).1.Bare?
    ensures !RequestLAD(env, c, sources, fetched).1.datum.result
  {
    var c' := RequestLAD(env, c, sources, fetched).0;
    assert forall k | k in c'.cache :: !c'.cache[k];
    assert true !in c'.cache.Values;
  }

  /** Once destroyed, a criterion can no longer be updated, formatted or queried. */
  lemma DestroyedCriterionFails(env: Env, c: Criterion, data: Option<Datum>, sources: Sources, fetched: seq<Fetch>)
    requires |fetched| == |sources|
    ensures GetResult(env, Destroy(c), data, sources) == Failure(UseAfterDestroy)
    ensures FormatData(env, Destroy(c), data, sources) == Failure(UseAfterDestroy)
    ensures RequestLAD(env, Destroy(c), sources, fetched).1.Rejected?
  {
  }
}
