/** JavaScript's `Map`, as the entries it iterates over: setting a key that is present keeps its
    place, setting a new one appends, and deleting closes the gap. */
module OrderedMaps {
  import opened Sequences

  type Entries<K, V> = seq<(K, V)>

  predicate Has<K(==), V>(m: Entries<K, V>, k: K) {
    m != [] && (m[|m|-1].0 == k || Has(m[..|m|-1], k))
  }

  function Set<K(==), V>(m: Entries<K, V>, k: K, v: V): Entries<K, V> {
    if m == [] then [(k, v)]
    else if m[0].0 == k then [(k, v)] + m[1..]
    else [m[0]] + Set(m[1..], k, v)
  }

  function Delete<K(==), V>(m: Entries<K, V>, k: K): Entries<K, V> {
    if m == [] then []
    else if m[0].0 == k then Delete(m[1..], k)
    else [m[0]] + Delete(m[1..], k)
  }

  function Values<K, V>(m: Entries<K, V>): (vs: seq<V>)
    ensures |vs| == |m| && forall i :: 0 <= i < |m| ==> vs[i] == m[i].1
  {
    seq(|m|, i requires 0 <= i < |m| => m[i].1)
  }

  /** `new Map([...m, ...extra])`. */
  function SetAll<K(==), V>(m: Entries<K, V>, extra: Entries<K, V>): Entries<K, V>
    decreases |extra|
  {
    if extra == [] then m else SetAll(Set(m, extra[0].0, extra[0].1), extra[1..])
  }

  function Keys<K, V>(m: Entries<K, V>): (ks: seq<K>)
    ensures |ks| == |m| && forall i :: 0 <= i < |m| ==> ks[i] == m[i].0
  {
    seq(|m|, i requires 0 <= i < |m| => m[i].0)
  }

  /** What `get` returns. */
  function Get<K(==), V>(m: Entries<K, V>, k: K): Option<V> {
    if m == [] then None else if m[0].0 == k then Some(m[0].1) else Get(m[1..], k)
  }

  lemma {:induction false} HasIsIn<K, V>(m: Entries<K, V>, k: K)
    ensures Has(m, k) <==> k in Keys(m)
  {
    if m != [] {
      HasIsIn(m[..|m|-1], k);
      assert Keys(m) == Keys(m[..|m|-1]) + [m[|m|-1].0];
    }
  }

  lemma {:induction false} GetIffIn<K, V>(m: Entries<K, V>, k: K)
    ensures Get(m, k).Some? <==> k in Keys(m)
  {
    if m != [] {
      GetIffIn(m[1..], k);
      assert Keys(m) == [m[0].0] + Keys(m[1..]);
    }
  }

  /** A key that is present keeps its place, a new one goes to the end. */
  lemma {:induction false} SetKeys<K, V>(m: Entries<K, V>, k: K, v: V)
    ensures Keys(Set(m, k, v)) == if k in Keys(m) then Keys(m) else Keys(m) + [k]
  {
    var r := Set(m, k, v);
    if m == [] {
      assert Keys(r) == [k];
    } else if m[0].0 == k {
      assert k == Keys(m)[0];
      assert Keys(r) == Keys(m);
    } else {
      SetKeys(m[1..], k, v);
      assert Keys(m) == [m[0].0] + Keys(m[1..]);
      assert Keys(r) == [m[0].0] + Keys(Set(m[1..], k, v));
    }
  }

  /** Setting changes the one key only. */
  lemma {:induction false} SetGets<K, V>(m: Entries<K, V>, k: K, v: V, other: K)
    ensures Get(Set(m, k, v), other) == if other == k then Some(v) else Get(m, other)
  {
    if m != [] && m[0].0 != k {
      SetGets(m[1..], k, v, other);
    }
  }

  /** Deleting removes the one key only, and keys stay distinct. */
  lemma {:induction false} DeleteLaws<K, V>(m: Entries<K, V>, k: K, other: K)
    ensures Get(Delete(m, k), other) == if other == k then None else Get(m, other)
    ensures forall x :: x in Keys(Delete(m, k)) <==> x in Keys(m) && x != k
    ensures Distinct(Keys(m)) ==> Distinct(Keys(Delete(m, k)))
  {
    if m != [] {
      assert Keys(m) == [m[0].0] + Keys(m[1..]);
      DeleteLaws(m[1..], k, other);
      var r := Delete(m, k);
      assert m[0].0 != k ==> Keys(r) == [m[0].0] + Keys(Delete(m[1..], k));
      assert Distinct(Keys(m)) ==> Distinct(Keys(m)[1..]) && m[0].0 !in Keys(m[1..]);
    }
  }

  /** With distinct keys, looking up and iterating see the same entries. */
  lemma {:induction false} GetIffEntry<K, V>(m: Entries<K, V>, k: K, v: V)
    requires Distinct(Keys(m))
    ensures Get(m, k) == Some(v) <==> exists i :: 0 <= i < |m| && m[i] == (k, v)
  {
    if m != [] {
      assert Keys(m) == [m[0].0] + Keys(m[1..]);
      assert Distinct(Keys(m)[1..]);
      GetIffEntry(m[1..], k, v);
      assert forall i :: 1 <= i < |m| ==> m[i].0 == Keys(m)[i] != m[0].0;
      assert forall i :: 1 <= i < |m| ==> m[i] == m[1..][i - 1];
    }
  }
}
