/**
  A Python `dict`: a finite map together with the order in which its keys were first
  inserted, which is the order `items()`, `values()` and `list(...)` follow.
*/
module OrderedDicts {

  datatype Dict<K(==), V> = Dict(entries: map<K, V>, keys: seq<K>)

  /** Every key is listed once, and exactly the mapped keys are listed. */
  ghost predicate Valid<K(!new), V>(d: Dict<K, V>)
  {
    && (forall i, j :: 0 <= i < j < |d.keys| ==> d.keys[i] != d.keys[j])
    && (forall k :: k in d.entries <==> k in d.keys)
  }

  function Empty<K(!new), V>(): (d: Dict<K, V>)
    ensures Valid(d) && |d.keys| == 0 && d.entries == map[]
  {
    Dict(map[], [])
  }

  /**
    `d[k] = v`: a new key goes to the end of the order; an existing key keeps its
    position and only its value changes.
  */
  function Put<K(!new), V>(d: Dict<K, V>, k: K, v: V): (r: Dict<K, V>)
    ensures Valid(d) ==> Valid(r)
    ensures k in r.entries && r.entries[k] == v
    ensures forall j :: j != k ==> (j in r.entries <==> j in d.entries)
    ensures forall j :: j != k && j in d.entries ==> r.entries[j] == d.entries[j]
    ensures |d.keys| <= |r.keys| <= |d.keys| + 1 && r.keys[..|d.keys|] == d.keys
  {
    if k in d.entries then Dict(d.entries[k := v], d.keys) else Dict(d.entries[k := v], d.keys + [k])
  }

  /** `list(d.values())`: the values in key order. */
  function Values<K(!new), V>(d: Dict<K, V>): (vs: seq<V>)
    requires Valid(d)
    ensures |vs| == |d.keys|
    ensures forall i :: 0 <= i < |vs| ==> vs[i] == d.entries[d.keys[i]]
  {
    seq(|d.keys|, i requires 0 <= i < |d.keys| => d.entries[d.keys[i]])
  }

  /** The number of keys is the size of the map. */
  lemma {:induction false} SizeIsKeyCount<K(!new), V>(d: Dict<K, V>)
    requires Valid(d)
    ensures |d.entries| == |d.keys|
    decreases |d.keys|
  {
    if |d.keys| > 0 {
      var last := d.keys[|d.keys| - 1];
      var rest := Dict(d.entries - {last}, d.keys[..|d.keys| - 1]);
      forall k ensures k in rest.entries <==> k in rest.keys {
        if k in rest.keys {
          var i :| 0 <= i < |rest.keys| && rest.keys[i] == k;
          assert d.keys[i] == k;
        }
      }
      SizeIsKeyCount(rest);
      assert d.entries.Keys == rest.entries.Keys + {last};
    } else {
      assert d.entries.Keys == {};
    }
  }
}
