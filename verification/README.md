# Telemetry criterion evaluator — a Dafny model

This project models the criterion evaluator of Open MCT's condition plugin
(`TelemetryCriterion` in `src/plugins/condition/criterion/AllTelemetryCriterion.js`).
A criterion applies a named comparison operation to one field of each
telemetry datum. It remembers the per-source outcome in a cache keyed by the
source's canonical key string. It combines all cached outcomes under the
`all` / `any` mode. It keeps that cache current in three ways:

- recording one datum's outcome under the datum's own `id` (`computeResult`,
  first-match lookup in the operation registry with `findOperation`);
- backfilling `false` for every given source whose key has no entry yet;
- aggregating every cached value (`evaluateResults`).

The streaming path (`getResult`) persists the aggregate as `result`. The
formatting path (`formatData`) returns it, stamped with the datum's
time-system fields, and leaves `result` alone. The latest-value query
(`requestLAD`) joins one request per source. It folds all but the last
source's latest datum into the cache, then hands the last one to
`formatData`. `isValid` (a mode of exactly `any` or `all`, plus a non-empty
field name and operation name) gates both paths.

The criterion is an immutable value: `Active(config, sources, cache, result)`,
or `Retired` after `destroy`. Each entry point is a pure function returning
the next criterion. The collaborators are parameters gathered in `Env`:

- the operation registry, a sequence of `(name, predicate)` entries;
- `makeKeyString`, an arbitrary total function from identifier to key;
- the keys of the registered time systems.

Settled latest-value requests are passed in as a sequence, one per source,
in key order. Datum values are an opaque `Atom` type, plus `Undefined` for a
missing field.

Three points where the code is easy to misread:

- An empty datum `{}` is truthy in JavaScript. `computeResult({})` therefore
  still runs the operation, on `[undefined, ...input]`. Only a missing datum
  yields `false` outright. So an invalid criterion's `getResult` records
  `computeResult({})`, not necessarily `false`, under the key `"undefined"`.
  `CriterionProperties.EmptyDatumStillCompared` states this.
- `getResult`, `formatData` and `requestLAD` backfill and query the sources
  passed to them. The criterion's own source map, which `updateTelemetry`
  replaces, is not read by any of them.
- The aggregator's source file is not part of this model.
  `Evaluator.EvaluateResults` gives it an assumed body: under `all`, every
  value must be true, vacuously for none; under any other mode, some value
  must be true.

## Model

| member | source | states |
|---|---|---|
| Operations.FindOperation | src/plugins/condition/criterion/AllTelemetryCriterion.js:101-108 | finds nothing exactly when no registry entry has the name; otherwise returns the predicate of the first entry with that name |
| Operations.FindFrom | src/plugins/condition/criterion/AllTelemetryCriterion.js:102-107 | the scan from a position on finds nothing exactly when no later entry has the name; otherwise it returns the predicate of the first such entry at or after that position |
| Telemetry.Field | src/plugins/condition/criterion/AllTelemetryCriterion.js:115 | reading a field gives its value when the datum has it, and `undefined` otherwise |
| Telemetry.CacheKey | src/plugins/condition/criterion/AllTelemetryCriterion.js:60 | a datum is cached under its id, or under the property name `"undefined"` when it has none |
| TelemetryCriterion.Params | src/plugins/condition/criterion/AllTelemetryCriterion.js:114-118 | the parameter list starts with the datum's field (undefined when missing); the input values follow exactly when the input is an array |
| TelemetryCriterion.IsValid | src/plugins/condition/criterion/AllTelemetryCriterion.js:133-135 | valid exactly when the mode is `any` or `all` and both the field name and the operation name are non-empty |
| TelemetryCriterion.ComputeResult | src/plugins/condition/criterion/AllTelemetryCriterion.js:110-124 | false for a missing datum or an unregistered operation; otherwise true exactly when the first operation of that name accepts the parameter list |
| CriterionProperties.EmptyDatumStillCompared | src/plugins/condition/criterion/AllTelemetryCriterion.js:110-124 | the empty datum `{}` is not treated as missing: the operation is applied to `[undefined, ...input]` |
| TelemetryCriterion.Record | src/plugins/condition/criterion/AllTelemetryCriterion.js:59-61 | a present datum adds or replaces only the entry under its own id (or `"undefined"`), with its computed outcome; a missing datum changes nothing |
| ResultCache.Backfill | src/plugins/condition/criterion/AllTelemetryCriterion.js:63-70 | the keys afterwards are the old keys plus every source's canonical key; existing entries are never overwritten; every inserted entry is false |
| TelemetryCriterion.Refresh | src/plugins/condition/criterion/AllTelemetryCriterion.js:87-96 | after recording and backfilling, every source has an entry; the only existing entry that can change is the datum's own; every new entry other than the datum's is a source's key holding false |
| TelemetryCriterion.Stamps | src/plugins/condition/criterion/AllTelemetryCriterion.js:76-80 | every time-system key is stamped, and only those, each with the datum's value for that field (undefined included) |
| TelemetryCriterion.FormatData | src/plugins/condition/criterion/AllTelemetryCriterion.js:58-82 | refreshes the cache, returns the aggregate of all cached values, stamps time-system fields only when a datum is given, leaves the persisted result unchanged; fails on a destroyed criterion |
| TelemetryCriterion.GetResult | src/plugins/condition/criterion/AllTelemetryCriterion.js:84-99 | persists the aggregate of the refreshed cache as the result; every source has an entry; an invalid criterion records `computeResult({})` under `"undefined"` instead of the datum; fails on a destroyed criterion |
| TelemetryCriterion.UpdateTelemetry | src/plugins/condition/criterion/AllTelemetryCriterion.js:54-56 | replaces the source map wholesale and leaves the cache and result untouched |
| TelemetryCriterion.Destroy | src/plugins/condition/criterion/AllTelemetryCriterion.js:175-180 | the criterion becomes retired, keeping its configuration and last result |
| TelemetryCriterion.Create | src/plugins/condition/criterion/AllTelemetryCriterion.js:36-52 | a new criterion keeps its definition and sources, with an empty cache and no result |
| Evaluator.AllMeansEvery | src/plugins/condition/criterion/AllTelemetryCriterion.js:73 | under `all` the aggregate of a cache's values holds exactly when every cached outcome is true |
| Evaluator.AnyMeansSome | src/plugins/condition/criterion/AllTelemetryCriterion.js:98 | under `any` the aggregate of a cache's values holds exactly when some cached outcome is true |
| LatestQuery.LatestOf | src/plugins/condition/criterion/AllTelemetryCriterion.js:161 | a request's contribution is its last sample, or `{}` when it returned none |
| LatestQuery.Latests | src/plugins/condition/criterion/AllTelemetryCriterion.js:157-161 | the join fails exactly when some request rejected; otherwise it yields each source's latest datum, in source order |
| LatestQuery.RequestLAD | src/plugins/condition/criterion/AllTelemetryCriterion.js:137-173 | invalid: returns the bare `formatData({}, sources)` datum; a rejected request leaves the criterion unchanged; otherwise resolves `{id, data}` with the aggregate, every source cached; zero sources: no datum applied and no stamps; the result and the criterion's own source map are never changed |
| CriterionProperties.PathsAgree | src/plugins/condition/criterion/AllTelemetryCriterion.js:72-98 | for a valid criterion both paths refresh the cache identically; the streaming path persists the very aggregate the formatting path returns |
| CriterionProperties.InvalidIgnoresData | src/plugins/condition/criterion/AllTelemetryCriterion.js:85-88 | an invalid criterion's streaming update is the same whatever datum is supplied |
| CriterionProperties.InvalidQueryFetchesNothing | src/plugins/condition/criterion/AllTelemetryCriterion.js:146-148 | an invalid criterion's query does not depend on any request's outcome |
| CriterionProperties.StaleEntryStillCounts | src/plugins/condition/criterion/AllTelemetryCriterion.js:91-98 | after the sources are replaced, a cached false outcome survives, removed source or not, and keeps an `all` aggregate false |
| CriterionProperties.AllVersusAny | src/plugins/condition/criterion/AllTelemetryCriterion.js:84-98 | whatever is cached and whichever sources are given: after a datum the first matching operation accepts and then one it rejects, with a different id, stream in, the result is false under `all` and true under `any` |
| LatestQuery.FoldRecord | src/plugins/condition/criterion/AllTelemetryCriterion.js:160-166 | records each datum in turn, first to last; the keys afterwards are the old keys plus exactly the data's keys |
| CriterionProperties.FoldRecordSnoc | src/plugins/condition/criterion/AllTelemetryCriterion.js:160-166 | recording one more datum after the in-order fold equals the fold over the extended sequence |
| CriterionProperties.FoldRecordKeepsUnnamed | src/plugins/condition/criterion/AllTelemetryCriterion.js:160-166 | after the in-order fold, a key that no datum is stored under is present and valued exactly as before |
| CriterionProperties.FoldRecordLastWins | src/plugins/condition/criterion/AllTelemetryCriterion.js:160-166 | after the in-order fold, a datum's key holds that datum's outcome when no later datum has the same id: the last datum per id wins |
| CriterionProperties.LadFoldsEveryLatest | src/plugins/condition/criterion/AllTelemetryCriterion.js:157-171 | "all but the last, then `formatData(last)`" leaves the cache equal to folding every source's latest datum in order and then backfilling |
| CriterionProperties.LadStampsLastSource | src/plugins/condition/criterion/AllTelemetryCriterion.js:159-170 | with at least one source, the query's datum carries the time-system fields of the last source's latest datum |
| CriterionProperties.VacuousTruth | src/plugins/condition/criterion/AllTelemetryCriterion.js:150-172 | a valid `all` criterion with no sources and an empty cache answers true, with no stamps, and changes nothing |
| CriterionProperties.MissingOperationKeepsCacheFalse | src/plugins/condition/criterion/AllTelemetryCriterion.js:58-99 | with no operation name, a streaming update, a formatting call and a latest-value query each keep an all-false cache all false, whatever the datum or requests; a new criterion starts empty, so every cache it reaches is all false |
| CriterionProperties.MissingOperationStaysFalse | src/plugins/condition/criterion/AllTelemetryCriterion.js:84-98 | under mode `all` or `any`, a streaming update of a criterion with no operation name and an all-false cache persists false, whatever the datum |
| CriterionProperties.MissingOperationAnswersFalse | src/plugins/condition/criterion/AllTelemetryCriterion.js:146-148 | under mode `all` or `any`, a criterion with no operation name and an all-false cache (every cache it reaches) answers at once, without a promise, with false |
| CriterionProperties.DestroyedCriterionFails | src/plugins/condition/criterion/AllTelemetryCriterion.js:175-180 | after destroy, streaming updates and formatting fail and the query rejects |

## Left out

- Event emission (`emitEvent` and the `criterionUpdated` event raised by the constructor) is not modelled. It is a thin wrapper over the inherited event emitter.
- The telemetry transport and the `Promise.all` concurrency are not modelled. Each request's settled outcome is an input. Arrival order and cancellation are not represented, and a rejection carries no reason.
- The request options (`strategy: 'latest'`, `size: 1`) are not modelled. They only parameterise the transport.
- Evaluator.EvaluateResults: its body is an assumption. The aggregator's source file is not part of this model. The model also assumes the aggregate depends only on which booleans occur, not on their order or multiplicity in `Object.values`.
- The operation predicates are abstract and return `bool`. The `!!` coercion of a truthy or falsy return value is therefore not modelled.
- `makeKeyString` and the time-system registry are parameters. Time values are never interpreted.
- LatestQuery.RequestLAD: on a destroyed, invalid criterion the source throws synchronously rather than returning a rejected promise. Both are modelled as `Rejected(UseAfterDestroy)`.
- TelemetryCriterion.UpdateTelemetry: on a destroyed criterion the source re-creates the source map. The model keeps the criterion retired, since nothing in the evaluator reads that map.
- A time system keyed `result` would overwrite the aggregate in the formatted datum. The model keeps the aggregate and the stamps apart.
- TelemetryCriterion.Stamps: a time system keyed `id` is stamped with the datum's field `id` in the model, whereas the source copies the datum's `id` property, which the model holds apart from the fields.
- The cache is a plain JavaScript object, so property names inherited from `Object.prototype` behave differently from a map key. A source whose key string is such a name (`constructor`, say) already reads as defined, so the source does not backfill it and it does not feed the aggregate; a datum whose id is `__proto__` is never recorded. The model's map treats every key alike; keys that name `Object.prototype` properties are not modelled. Field reads are affected the same way: `data[this.metadata]` and `data[timeSystem.key]` return the inherited property when the name is, say, `constructor`, whereas `Field` returns `Undefined`.
- A datum's `id` is held apart from its fields. A criterion whose field name is `id` is therefore not modelled.
- A missing `metadata` or `operation` is written as the empty string. The source's `findOperation(undefined)` never matches; the model's `""` would match a registry entry named `""`, and real registries have none. Field reads differ too: for a missing `metadata` the source reads `data["undefined"]`, while the model reads the field `""`. The source's own paths never meet this, since an invalid criterion is handed `{}`; only a direct `formatData` call on an invalid criterion would.
- Source descriptors are reduced to their identifiers. A source map is a sequence of entries in key order; duplicate names, impossible in a JavaScript object, are allowed and harmless.
