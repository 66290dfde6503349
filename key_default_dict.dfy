/**
 * `keydefaultdict` (cloudvolume/storage.py): a dictionary whose missing keys are
 * filled in by a factory that receives the key itself.  The connection pools are
 * built on it, one pool per service and bucket, created on first use.
 */
module KeyDefaultDict {
  import opened Wrappers

  /** The error `__missing__` raises when there is no factory. */
  datatype KeyError<K> = KeyError(key: K)

  class KeyDefaultDict<K(==), V> {
    /** The dictionary's contents. */
    var entries: map<K, V>
    /** `default_factory`, or `None`. */
    const factory: Option<K -> V>
    /** The keys the factory has been called for, in order (ghost bookkeeping). */
    ghost var created: seq<K>

    /** The factory is called at most once per key, and what it made stays in the dictionary. */
    ghost predicate Valid()
      reads this
    {
      (forall i, j :: 0 <= i < j < |created| ==> created[i] != created[j])
      && (forall i :: 0 <= i < |created| ==> created[i] in entries)
      && (factory.None? ==> created == [])
    }

    constructor (factory: Option<K -> V>)
      ensures Valid()
      ensures this.factory == factory && entries == map[] && created == []
    {
      this.factory := factory;
      entries := map[];
      created := [];
    }

    /** `d[key]`: a present key is looked up; a missing one is created by the factory and stored, or raises `KeyError`. */
    method Get(key: K) returns (r: Result<V, KeyError<K>>)
      requires Valid()
      modifies this
      ensures Valid()
      ensures key in old(entries) ==>
        r == Ok(old(entries)[key]) && entries == old(entries) && created == old(created)
      ensures key !in old(entries) && factory.None? ==>
        r == Err(KeyError(key)) && entries == old(entries) && created == old(created)
      ensures key !in old(entries) && factory.Some? ==>
        r == Ok(factory.value(key)) && entries == old(entries)[key := factory.value(key)]
        && created == old(created) + [key]
    {
      if key in entries {
        r := Ok(entries[key]);
      } else if factory.None? {
        r := Err(KeyError(key));
      } else {
        var v := factory.value(key);
        entries := entries[key := v];
        created := created + [key];
        r := Ok(v);
      }
    }
  }
}
