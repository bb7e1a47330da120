/**
 * The per-source result cache (`telemetryDataCache`) and the backfill that
 * gives every known source an entry before each aggregation.
 */
module ResultCache {
  import opened Telemetry

  /** Canonical source key to that source's last computed outcome. */
  type Cache = map<Key, bool>

  /** The canonical keys of the given telemetry objects. */
  ghost function KnownKeys(keyString: Identifier -> Key, sources: Sources): set<Key>
  {
    set i | 0 <= i < |sources| :: keyString(sources[i].identifier)
  }

  /**
   * The backfill loop: each source, in order, whose key has no entry yet
   * gets the entry `false`. Entries already present are never touched.
   */
  function Backfill(keyString: Identifier -> Key, cache: Cache, sources: Sources): (r: Cache)
    ensures r.Keys == cache.Keys + KnownKeys(keyString, sources)
    ensures forall k | k in cache :: r[k] == cache[k]
    ensures forall k | k in r && k !in cache :: !r[k]
    decreases |sources|
  {
    if |sources| == 0 then cache
    else
      var k := keyString(sources[0].identifier);
      var filled := if k in cache then cache else cache[k := false];
      assert KnownKeys(keyString, sources) == {k} + KnownKeys(keyString, sources[1..]) by {
        forall x | x in KnownKeys(keyString, sources)
          ensures x in {k} + KnownKeys(keyString, sources[1..])
        {
          var i :| 0 <= i < |sources| && keyString(sources[i].identifier) == x;
          if i > 0 {
            assert sources[1..][i - 1] == sources[i];
          }
        }
        forall x | x in KnownKeys(keyString, sources[1..])
          ensures x in KnownKeys(keyString, sources)
        {
          var i :| 0 <= i < |sources[1..]| && keyString(sources[1..][i].identifier) == x;
          assert sources[i + 1] == sources[1..][i];
        }
      }
      Backfill(keyString, filled, sources[1..])
  }
}
