/**
 * Telemetry data as the criterion sees it: samples ("datums") carrying an
 * optional source id and named fields, and the sources they come from.
 */
module Telemetry {
  import opened Wrappers

  /** A literal telemetry or comparison value; the evaluator never looks inside one. */
  type Atom(==)

  /** A field value as JavaScript reads it: a missing field reads as `undefined`. */
  datatype Value = Undefined | Defined(atom: Atom)

  /** A domain-object identifier, turned into a `Key` by the object API's `makeKeyString`. */
  type Identifier

  /** A canonical source key: the property name of an entry of the result cache. */
  type Key = string

  /** The property name JavaScript uses when the key expression is `undefined`. */
  const AbsentKey: Key := "undefined"

  /** One telemetry sample: the id of the source it came from, if any, and its fields. */
  datatype Datum = Datum(id: Option<Key>, fields: map<string, Value>)

  /** The object literal `{}`: present (truthy), but with no id and no fields. */
  const EmptyDatum: Datum := Datum(None, map[])

  /** One entry of a telemetry-object map, in the map's key order. */
  datatype Source = Source(name: string, identifier: Identifier)

  /** A telemetry-object map (`telemetryObjects`) as the sequence of its entries. */
  type Sources = seq<Source>

  /** `datum[name]`. */
  function Field(d: Datum, name: string): (v: Value)
    ensures name in d.fields ==> v == d.fields[name]
    ensures name !in d.fields ==> v == Undefined
  {
    if name in d.fields then d.fields[name] else Undefined
  }

  /** The cache key a datum is stored under: its `id`, or `AbsentKey` when it has none. */
  function CacheKey(d: Datum): (k: Key)
    ensures d.id.Some? ==> k == d.id.value
    ensures d.id.None? ==> k == AbsentKey
  {
    match d.id
    case Some(id) => id
    case None => AbsentKey
  }
}
