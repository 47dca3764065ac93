/** Operations shared by every table of the in-memory store. Keys are the identity
    column's values: positive and below the next id the table will hand out. */
module Tables {

  /** All keys of `m` lie in `1 .. bound - 1`. */
  predicate KeysBelow<V>(m: map<int, V>, bound: int) {
    forall k :: k in m ==> 1 <= k < bound
  }

  /** `findAll`: every row of `m`, one per key, in ascending key order; `keys` lists the
      key of each row at the same position. */
  method ListValues<V(==)>(m: map<int, V>, bound: int) returns (keys: seq<int>, s: seq<V>)
    requires KeysBelow(m, bound)
    ensures |s| == |keys|
    ensures forall i :: 0 <= i < |keys| ==> keys[i] in m && s[i] == m[keys[i]]
    ensures forall i, j :: 0 <= i < j < |keys| ==> keys[i] < keys[j]
    ensures forall k :: k in m <==> k in keys
  {
    keys, s := [], [];
    var i := 1;
    while i < bound
      invariant 1 <= i && (1 <= bound ==> i <= bound)
      invariant |s| == |keys|
      invariant forall n :: 0 <= n < |keys| ==> keys[n] in m && keys[n] < i && s[n] == m[keys[n]]
      invariant forall n, p :: 0 <= n < p < |keys| ==> keys[n] < keys[p]
      invariant forall k :: k in m && k < i ==> k in keys
    {
      if i in m {
        keys, s := keys + [i], s + [m[i]];
      }
      i := i + 1;
    }
  }
}
