/** The keyed application cache: `Cache::remember` returns the stored value
    for a key or computes, stores and returns a new one; `Cache::forget`
    evicts a key. Expiry after the time-to-live is not modelled. */
module Cache {

  datatype Remembered<V> = Remembered(value: V, entries: map<string, V>)

  /** `Cache::remember(key, ttl, fn)`, with `computed` standing for what the
      closure would return if it ran. */
  function RememberIn<V>(entries: map<string, V>, key: string, computed: V): (r: Remembered<V>)
    ensures r.entries.Keys == entries.Keys + {key}
    ensures r.entries[key] == r.value
    ensures forall k | k in entries :: r.entries[k] == entries[k]
  {
    if key in entries then Remembered(entries[key], entries)
    else Remembered(computed, entries[key := computed])
  }

  /** A remembered key answers the first value until it is forgotten,
      whatever the closure would compute later. */
  lemma RememberIsStable<V>(entries: map<string, V>, key: string, first: V, later: V)
    ensures var r1 := RememberIn(entries, key, first);
            var r2 := RememberIn(r1.entries, key, later);
            r2.value == r1.value && r2.entries == r1.entries
  {
  }

  /** After `forget`, the next `remember` runs the closure. */
  lemma ForgetThenRemember<V>(entries: map<string, V>, key: string, computed: V)
    ensures RememberIn(entries - {key}, key, computed).value == computed
  {
  }

  /** Forgetting one key leaves every other key's remembered value alone. */
  lemma ForgetKeepsOtherKeys<V>(entries: map<string, V>, gone: set<string>, key: string, computed: V)
    requires key !in gone
    ensures RememberIn(entries - gone, key, computed).value == RememberIn(entries, key, computed).value
  {
  }

  class Store<V> {
    var entries: map<string, V>

    constructor ()
      ensures entries == map[]
    {
      entries := map[];
    }

    method Remember(key: string, computed: V) returns (v: V)
      modifies this
      ensures Remembered(v, entries) == RememberIn(old(entries), key, computed)
    {
      if key in entries {
        v := entries[key];
      } else {
        entries := entries[key := computed];
        v := computed;
      }
    }

    method Forget(key: string)
      modifies this
      ensures entries == old(entries) - {key}
    {
      entries := entries - {key};
    }
  }
}
