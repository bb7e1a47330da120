/** The operation registry (`OPERATIONS`) and its first-match lookup (`findOperation`). */
module Operations {
  import opened Wrappers
  import opened Telemetry

  /** A named comparison over the parameter list `[field value, ...input]`. */
  datatype Operation = Operation(name: string, test: seq<Value> -> bool)

  /** `i` is the first position of `registry` whose entry is named `name`. */
  ghost predicate FirstMatch(registry: seq<Operation>, name: string, i: int)
  {
    && 0 <= i < |registry|
    && registry[i].name == name
    && forall j | 0 <= j < i :: registry[j].name != name
  }

  /** No entry of `registry` is named `name`. */
  ghost predicate Unregistered(registry: seq<Operation>, name: string)
  {
    forall i | 0 <= i < |registry| :: registry[i].name != name
  }

  /** The predicate of the first entry named `name`, or `None` (JavaScript `null`) when there is none. */
  function FindOperation(registry: seq<Operation>, name: string): (r: Option<seq<Value> -> bool>)
    ensures r.None? <==> Unregistered(registry, name)
    ensures r.Some? ==> exists i :: FirstMatch(registry, name, i) && r.value == registry[i].test
  {
    FindFrom(registry, name, 0)
  }

  /** The scan of `findOperation`, from position `start` on. */
  function FindFrom(registry: seq<Operation>, name: string, start: nat): (r: Option<seq<Value> -> bool>)
    requires start <= |registry|
    ensures r.None? <==> forall i | start <= i < |registry| :: registry[i].name != name
    ensures r.Some? ==> exists i :: start <= i < |registry| && registry[i].name == name
                                    && r.value == registry[i].test
                                    && forall j | start <= j < i :: registry[j].name != name
    decreases |registry| - start
  {
    if start == |registry| then None
    else if registry[start].name == name then Some(registry[start].test)
    else FindFrom(registry, name, start + 1)
  }
}
