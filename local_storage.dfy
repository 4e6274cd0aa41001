/** The browser's `localStorage`: string keys to string values, with the keys in
    the order `key(i)` enumerates them. */
module LocalStorage {
  import opened Wrappers

  /** No key is listed twice. */
  ghost predicate Distinct(keys: seq<string>)
  {
    forall i, j :: 0 <= i < j < |keys| ==> keys[i] != keys[j]
  }

  /** The key order after `setItem(k, _)`: a key already present keeps its place,
      a new one is enumerated last. */
  function Put(keys: seq<string>, k: string): (r: seq<string>)
    ensures forall x :: x in r <==> x in keys || x == k
    ensures Distinct(keys) ==> Distinct(r)
    ensures |r| == if k in keys then |keys| else |keys| + 1
  {
    if k in keys then keys else keys + [k]
  }

  class Storage {
    var keys: seq<string>
    var items: map<string, string>

    /** The listed keys are exactly the stored ones, each once. */
    ghost predicate Valid()
      reads this
    {
      Distinct(keys) && forall k :: k in items <==> k in keys
    }

    constructor ()
      ensures Valid() && keys == [] && items == map[]
    {
      keys := [];
      items := map[];
    }

    /** `localStorage.length`. */
    function Length(): nat
      reads this
    {
      |keys|
    }

    /** `localStorage.key(i)`. */
    method Key(i: nat) returns (k: string)
      requires Valid() && i < |keys|
      ensures k == keys[i] && k in items
    {
      k := keys[i];
    }

    /** `localStorage.getItem(k)`, `None` for JavaScript's `null`. */
    method GetItem(k: string) returns (v: Option<string>)
      requires Valid()
      ensures v.Some? <==> k in items
      ensures v.Some? ==> v.value == items[k]
    {
      if k in items {
        v := Some(items[k]);
      } else {
        v := None;
      }
    }

    /** `localStorage.setItem(k, v)`. */
    method SetItem(k: string, v: string)
      requires Valid()
      modifies this
      ensures Valid()
      ensures items == old(items)[k := v]
      ensures keys == Put(old(keys), k)
    {
      keys := Put(keys, k);
      items := items[k := v];
    }
  }
}
