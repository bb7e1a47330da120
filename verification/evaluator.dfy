/**
 * Aggregation of the per-source outcomes (`evaluateResults`).
 *
 * The aggregator's own source file is not part of this model. The body below
 * is an assumption: under mode "all" the
 * aggregate holds iff every outcome is true (vacuously for no outcomes), and
 * under any other mode it holds iff some outcome is true.
 */
module Evaluator {
  import opened Telemetry

  /** `evaluateResults(values, mode)`; only which booleans occur matters to either mode. */
  function EvaluateResults(values: set<bool>, mode: string): bool
  {
    if mode == "all" then false !in values else true in values
  }

  /** Under "all", the aggregate over a cache's values holds iff every cached outcome is true. */
  lemma AllMeansEvery(cache: map<Key, bool>)
    ensures EvaluateResults(cache.Values, "all") <==> forall k | k in cache :: cache[k]
  {
    if false in cache.Values {
      var k :| k in cache && cache[k] == false;
    }
  }

  /** Under "any", the aggregate over a cache's values holds iff some cached outcome is true. */
  lemma AnyMeansSome(cache: map<Key, bool>)
    ensures EvaluateResults(cache.Values, "any") <==> exists k | k in cache :: cache[k]
  {
    if true in cache.Values {
      var k :| k in cache && cache[k] == true;
    }
  }
}
