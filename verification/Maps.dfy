/** Finite maps tabulated from a function, built up entry by entry. */
module Maps {

  ghost function Tabulate<K, V>(keys: set<K>, f: K --> V): (m: map<K, V>)
    requires forall k | k in keys :: f.requires(k)
    ensures m.Keys == keys
    ensures forall k | k in keys :: m[k] == f(k)
  {
    if keys == {} then map[]
    else
      var k :| k in keys;
      Tabulate(keys - {k}, f)[k := f(k)]
  }
}
