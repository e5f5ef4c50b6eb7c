/**
 * A JavaScript `Map` as the sequence of its entries in insertion order:
 * `set` on a present key replaces the value in place, `set` on an absent key
 * appends, and `delete` removes the entry and keeps the order of the rest.
 */
module OrderedMap {

  function Keys<K, V>(m: seq<(K, V)>): (ks: seq<K>)
    ensures |ks| == |m| && forall i :: 0 <= i < |m| ==> ks[i] == m[i].0
  {
    seq(|m|, i requires 0 <= i < |m| => m[i].0)
  }

  predicate Distinct<K(==)>(ks: seq<K>) {
    forall i, j :: 0 <= i < j < |ks| ==> ks[i] != ks[j]
  }

  /** The entries of a real `Map` never repeat a key. */
  predicate Valid<K(==), V>(m: seq<(K, V)>) {
    Distinct(Keys(m))
  }

  /** The position of the first occurrence of `k` in `ks`, or -1. */
  function IndexOf<K(==)>(ks: seq<K>, k: K): (i: int)
    ensures -1 <= i < |ks|
    ensures i >= 0 ==> ks[i] == k && forall j :: 0 <= j < i ==> ks[j] != k
    ensures i == -1 <==> k !in ks
  {
    if ks == [] then -1
    else if ks[0] == k then 0
    else
      var j := IndexOf(ks[1..], k);
      if j < 0 then -1 else j + 1
  }

  /** `Map.prototype.has` */
  predicate Has<K(==), V>(m: seq<(K, V)>, k: K) {
    k in Keys(m)
  }

  /** `Map.prototype.get` on a present key */
  function Get<K(==), V>(m: seq<(K, V)>, k: K): V
    requires Has(m, k)
  {
    m[IndexOf(Keys(m), k)].1
  }

  /** The dictionary the entries denote. */
  ghost function ToMap<K, V>(m: seq<(K, V)>): (d: map<K, V>)
    ensures d.Keys == set k | k in Keys(m)
  {
    map k | k in Keys(m) :: Get(m, k)
  }

  /** In a valid map the entry at position `i` is the dictionary's binding for its key. */
  lemma {:induction false} EntryIsBinding<K, V>(m: seq<(K, V)>, i: int)
    requires Valid(m) && 0 <= i < |m|
    ensures m[i].0 in ToMap(m) && ToMap(m)[m[i].0] == m[i].1
  {
    assert Keys(m)[i] == m[i].0;
  }

  lemma {:induction false} DistinctCard<K>(ks: seq<K>)
    requires Distinct(ks)
    ensures |set k | k in ks| == |ks|
  {
    if ks != [] {
      DistinctCard(ks[1..]);
      var rest := set k | k in ks[1..];
      assert (set k | k in ks) == {ks[0]} + rest;
      assert ks[0] !in rest;
    }
  }

  /** `Map.prototype.size` is the number of distinct keys. */
  lemma {:induction false} SizeIsCount<K, V>(m: seq<(K, V)>)
    requires Valid(m)
    ensures |ToMap(m)| == |m|
  {
    DistinctCard(Keys(m));
    assert ToMap(m).Keys == set k | k in Keys(m);
  }

  /** `Map.prototype.set`: a present key keeps its position, an absent one is appended. */
  function Set<K(==), V>(m: seq<(K, V)>, k: K, v: V): (r: seq<(K, V)>)
    ensures Keys(r) == if Has(m, k) then Keys(m) else Keys(m) + [k]
    ensures Has(m, k) ==> |r| == |m| && r[IndexOf(Keys(m), k)] == (k, v)
    ensures !Has(m, k) ==> r == m + [(k, v)]
    ensures forall j :: 0 <= j < |m| && m[j].0 != k ==> r[j] == m[j]
  {
    var i := IndexOf(Keys(m), k);
    var r := if i >= 0 then m[i := (k, v)] else m + [(k, v)];
    assert Keys(r) == if i >= 0 then Keys(m) else Keys(m) + [k];
    r
  }

  /** `set` keeps the keys distinct and binds `k` to `v`, leaving every other binding as it was. */
  lemma {:induction false} SetBinds<K, V>(m: seq<(K, V)>, k: K, v: V)
    requires Valid(m)
    ensures Valid(Set(m, k, v)) && ToMap(Set(m, k, v)) == ToMap(m)[k := v]
  {
    var r := Set(m, k, v);
    forall x | x in Keys(r) && x != k
      ensures Get(r, x) == Get(m, x)
    {
      var j := IndexOf(Keys(m), x);
      assert IndexOf(Keys(r), x) == j;
    }
  }

  /** `Map.prototype.delete`: the entry goes, the others keep their order. */
  function Delete<K(==), V>(m: seq<(K, V)>, k: K): (r: seq<(K, V)>)
    ensures !Has(m, k) ==> r == m
    ensures Has(m, k) ==> var i := IndexOf(Keys(m), k); r == m[..i] + m[i + 1..]
  {
    var i := IndexOf(Keys(m), k);
    if i < 0 then m else m[..i] + m[i + 1..]
  }

  /** Deleting position `i` from a sequence of distinct keys keeps them distinct. */
  lemma {:induction false} RemoveAtDistinct<K>(ks: seq<K>, i: int)
    requires Distinct(ks) && 0 <= i < |ks|
    ensures Distinct(ks[..i] + ks[i + 1..])
  {
    var r := ks[..i] + ks[i + 1..];
    forall a, b | 0 <= a < b < |r| ensures r[a] != r[b] {
      var a' := if a < i then a else a + 1;
      var b' := if b < i then b else b + 1;
      assert r[a] == ks[a'] && r[b] == ks[b'];
    }
  }

  lemma {:induction false} KeysOfRemoveAt<K, V>(m: seq<(K, V)>, i: int)
    requires 0 <= i < |m|
    ensures Keys(m[..i] + m[i + 1..]) == Keys(m)[..i] + Keys(m)[i + 1..]
  {
    var r := m[..i] + m[i + 1..];
    assert forall j :: 0 <= j < |r| ==> r[j] == if j < i then m[j] else m[j + 1];
  }

  lemma {:induction false} RemoveAtGet<K, V>(m: seq<(K, V)>, i: int, x: K)
    requires Valid(m) && 0 <= i < |m| && Valid(m[..i] + m[i + 1..])
    requires x in Keys(m) && x != m[i].0
    ensures x in Keys(m[..i] + m[i + 1..]) && Get(m[..i] + m[i + 1..], x) == Get(m, x)
  {
    var r := m[..i] + m[i + 1..];
    KeysOfRemoveAt(m, i);
    var j := IndexOf(Keys(m), x);
    var j' := if j < i then j else j - 1;
    assert r[j'] == m[j];
    assert Keys(r)[j'] == x;
    assert IndexOf(Keys(r), x) == j';
  }

  lemma {:induction false} RemoveAtKeys<K, V>(m: seq<(K, V)>, i: int)
    requires Valid(m) && 0 <= i < |m|
    ensures forall x :: x in Keys(m[..i] + m[i + 1..]) <==> x in Keys(m) && x != m[i].0
  {
    var r := m[..i] + m[i + 1..];
    KeysOfRemoveAt(m, i);
    forall x | x in Keys(r) ensures x in Keys(m) && x != m[i].0 {
      var a := IndexOf(Keys(r), x);
      var a' := if a < i then a else a + 1;
      assert Keys(m)[a'] == x;
    }
    forall x | x in Keys(m) && x != m[i].0 ensures x in Keys(r) {
      var j := IndexOf(Keys(m), x);
      var j' := if j < i then j else j - 1;
      assert Keys(r)[j'] == x;
    }
  }

  /** `delete` keeps the keys distinct and removes exactly the binding for `k`. */
  lemma {:induction false} DeleteUnbinds<K, V>(m: seq<(K, V)>, k: K)
    requires Valid(m)
    ensures Valid(Delete(m, k)) && ToMap(Delete(m, k)) == ToMap(m) - {k}
    ensures Has(m, k) ==> |Delete(m, k)| == |m| - 1
  {
    if Has(m, k) {
      var i := IndexOf(Keys(m), k);
      var r := m[..i] + m[i + 1..];
      assert Valid(r) by {
        KeysOfRemoveAt(m, i);
        RemoveAtDistinct(Keys(m), i);
      }
      assert ToMap(r).Keys == ToMap(m).Keys - {k} by {
        RemoveAtKeys(m, i);
      }
      assert forall x :: x in ToMap(r) ==> ToMap(r)[x] == ToMap(m)[x] by {
        forall x | x in ToMap(r) ensures ToMap(r)[x] == ToMap(m)[x] {
          RemoveAtKeys(m, i);
          RemoveAtGet(m, i, x);
        }
      }
      assert ToMap(r) == ToMap(m) - {k};
    }
  }
}
