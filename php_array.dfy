/**
 * PHP arrays used as ordered dictionaries: entries keep their insertion order,
 * assigning to an existing key replaces its value in place, and `+` on two
 * lists keeps the left operand's entries for every index it already has.
 */
module PhpArray {
  import opened Wrappers

  /** An array with explicit keys, in insertion order. */
  type Entries<K, V> = seq<(K, V)>

  function Keys<K, V>(m: Entries<K, V>): (ks: seq<K>)
    ensures |ks| == |m| && forall i :: 0 <= i < |m| ==> ks[i] == m[i].0
  {
    seq(|m|, i requires 0 <= i < |m| => m[i].0)
  }

  /** `array_values`. */
  function Values<K, V>(m: Entries<K, V>): (vs: seq<V>)
    ensures |vs| == |m| && forall i :: 0 <= i < |m| ==> vs[i] == m[i].1
  {
    seq(|m|, i requires 0 <= i < |m| => m[i].1)
  }

  /** No key occurs twice, which every PHP array satisfies. */
  predicate DistinctKeys<K(==), V>(m: Entries<K, V>) {
    forall i, j :: 0 <= i < j < |m| ==> m[i].0 != m[j].0
  }

  /** `$m[$k]`, `None` when the key is absent. */
  function Get<K(==), V>(m: Entries<K, V>, k: K): (r: Option<V>)
    ensures r.None? <==> k !in Keys(m)
  {
    if m == [] then None else if m[0].0 == k then Some(m[0].1) else Get(m[1..], k)
  }

  /** `$m[$k] = $v`: an existing key keeps its position and gets the new value; a new key is appended. */
  function Put<K(==, !new), V>(m: Entries<K, V>, k: K, v: V): (r: Entries<K, V>)
    ensures Get(r, k) == Some(v)
    ensures forall k' :: k' != k ==> Get(r, k') == Get(m, k')
  {
    if m == [] then [(k, v)]
    else if m[0].0 == k then [(k, v)] + m[1..]
    else [m[0]] + Put(m[1..], k, v)
  }

  lemma KeysCons<K, V>(m: Entries<K, V>)
    requires m != []
    ensures Keys(m) == [m[0].0] + Keys(m[1..])
  {
  }

  lemma KeysConcat<K, V>(a: Entries<K, V>, b: Entries<K, V>)
    ensures Keys(a + b) == Keys(a) + Keys(b)
  {
  }

  /** `$m[$k] = $v` keeps the order of the keys: an existing key stays where it was, a new key goes last. */
  lemma {:induction false} PutKeys<K(!new), V>(m: Entries<K, V>, k: K, v: V)
    ensures Keys(Put(m, k, v)) == if k in Keys(m) then Keys(m) else Keys(m) + [k]
    decreases |m|
  {
    if m != [] {
      var tail := m[1..];
      assert m == [m[0]] + tail;
      KeysConcat([m[0]], tail);
      if m[0].0 != k {
        PutKeys(tail, k, v);
        KeysConcat([m[0]], Put(tail, k, v));
      } else {
        KeysConcat([(k, v)], tail);
      }
    }
  }

  lemma PutKeepsDistinct<K(!new), V>(m: Entries<K, V>, k: K, v: V)
    requires DistinctKeys(m)
    ensures DistinctKeys(Put(m, k, v))
  {
    PutKeys(m, k, v);
    var r := Put(m, k, v);
    forall i, j | 0 <= i < j < |r|
      ensures r[i].0 != r[j].0
    {
      assert Keys(r)[i] == r[i].0 && Keys(r)[j] == r[j].0;
      if k !in Keys(m) && j == |m| {
        assert Keys(r)[i] == Keys(m)[i];
      } else {
        assert Keys(r)[i] == Keys(m)[i] && Keys(r)[j] == Keys(m)[j];
      }
    }
  }

  /** Putting a key the array does not have appends the entry. */
  lemma {:induction false} PutAppends<K(!new), V>(m: Entries<K, V>, k: K, v: V)
    requires k !in Keys(m)
    ensures Put(m, k, v) == m + [(k, v)]
    decreases |m|
  {
    if m != [] {
      var tail := m[1..];
      assert m == [m[0]] + tail;
      KeysConcat([m[0]], tail);
      PutAppends(tail, k, v);
      assert [m[0]] + (tail + [(k, v)]) == m + [(k, v)];
    }
  }

  /** Setting a key twice leaves the array as setting it once to the second value. */
  lemma {:induction false} PutTwice<K(!new), V>(m: Entries<K, V>, k: K, v1: V, v2: V)
    ensures Put(Put(m, k, v1), k, v2) == Put(m, k, v2)
    decreases |m|
  {
    if m != [] && m[0].0 != k {
      var rest := Put(m[1..], k, v1);
      assert ([m[0]] + rest)[1..] == rest;
      PutTwice(m[1..], k, v1, v2);
    }
  }

  /** Dropping the last entry keeps the keys distinct, and the dropped key is not among the rest. */
  lemma DistinctKeysInit<K, V>(m: Entries<K, V>)
    requires DistinctKeys(m) && m != []
    ensures DistinctKeys(m[..|m| - 1])
    ensures m[|m| - 1].0 !in Keys(m[..|m| - 1])
  {
    var init := m[..|m| - 1];
    forall i | 0 <= i < |init| ensures Keys(init)[i] != m[|m| - 1].0 {
      assert init[i] == m[i];
    }
  }

  /** In an array without repeated keys, looking up the key of an entry gives that entry's value. */
  lemma {:induction false} GetAt<K, V>(m: Entries<K, V>, i: nat)
    requires DistinctKeys(m) && i < |m|
    ensures Get(m, m[i].0) == Some(m[i].1)
  {
    if i > 0 {
      assert m[1..][i - 1] == m[i];
      GetAt(m[1..], i - 1);
    }
  }

  /**
   * `$a + $b` on two lists (keys 0 .. n-1): every index `$a` already has keeps
   * `$a`'s element; only `$b`'s elements at higher indices are added.
   */
  function ListUnion<V>(a: seq<V>, b: seq<V>): (r: seq<V>)
    ensures |r| == if |a| >= |b| then |a| else |b|
    ensures r[..|a|] == a
    ensures forall i :: |a| <= i < |b| ==> r[i] == b[i]
  {
    if |a| >= |b| then a else a + b[|a|..]
  }
}
