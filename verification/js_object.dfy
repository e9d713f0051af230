/**
 * A JavaScript object used as a string-keyed dictionary: a map together with
 * the order in which its keys were first assigned, which is the order
 * `Object.keys` reports them in.
 */
module JsObject {

  datatype Obj<V> = Obj(keys: seq<string>, vals: map<string, V>)

  /** Each key is listed once, and exactly the keys of the map are listed. */
  ghost predicate Valid<V>(o: Obj<V>) {
    && (forall i, j :: 0 <= i < j < |o.keys| ==> o.keys[i] != o.keys[j])
    && (forall k :: k in o.vals <==> k in o.keys)
  }

  /** `{}` */
  function Empty<V>(): (o: Obj<V>)
    ensures Valid(o) && o.vals == map[]
  {
    Obj([], map[])
  }

  /** `o[k] = v`: a new key goes to the end of the key order, an old one keeps its place. */
  function Put<V>(o: Obj<V>, k: string, v: V): (r: Obj<V>)
    requires Valid(o)
    ensures Valid(r)
    ensures r.vals == o.vals[k := v]
    ensures k in o.vals ==> r.keys == o.keys
    ensures k !in o.vals ==> r.keys == o.keys + [k]
  {
    if k in o.vals then Obj(o.keys, o.vals[k := v])
    else Obj(o.keys + [k], o.vals[k := v])
  }

  /** `Object.keys(o).map(k => o[k])`: the values in key order, one per key. */
  function Values<V>(o: Obj<V>): (r: seq<V>)
    requires Valid(o)
    ensures |r| == |o.keys|
    ensures forall i :: 0 <= i < |r| ==> o.keys[i] in o.vals && r[i] == o.vals[o.keys[i]]
    ensures forall k :: k in o.vals ==> o.vals[k] in r
  {
    var r := seq(|o.keys|, i requires 0 <= i < |o.keys| => o.vals[o.keys[i]]);
    assert forall k :: k in o.vals ==> exists i :: 0 <= i < |o.keys| && o.keys[i] == k && r[i] == o.vals[k];
    r
  }
}
