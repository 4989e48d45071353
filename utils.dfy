/** CopyMap (internal/kubernetes/utils.go): a real copy of a map, built
    entry by entry in a fresh map. Go visits the entries in no particular
    order; the loop here picks any entry not yet copied. */
module Utils {

  /** Copy every entry of `src` into an initially empty map. A Dafny map is
      a value, so the copy shares nothing with `src`: later writes to one
      are not seen through the other. */
  method CopyMap<V>(src: map<string, V>) returns (m: map<string, V>)
    ensures m.Keys == src.Keys
    ensures forall k :: k in m ==> m[k] == src[k]
    ensures |m| == |src|
  {
    m := map[];
    var rest := src.Keys;
    while rest != {}
      invariant rest <= src.Keys
      invariant m.Keys == src.Keys - rest
      invariant forall k :: k in m ==> m[k] == src[k]
      decreases rest
    {
      var k :| k in rest;
      m := m[k := src[k]];
      rest := rest - {k};
    }
  }
}
