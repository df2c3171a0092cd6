/** PHP's ordered arrays with explicit keys: a key keeps the position of its
    first insertion, assignment to an existing key replaces its value in
    place, and `unset` removes the entry and keeps the order of the rest. */
module OrderedMaps {
  import opened Wrappers

  datatype Entry<K, V> = Entry(key: K, value: V)

  /** The keys of a map, in order. */
  function Keys<K, V>(m: seq<Entry<K, V>>): (ks: seq<K>)
    ensures |ks| == |m|
    ensures forall i :: 0 <= i < |m| ==> ks[i] == m[i].key
  {
    if m == [] then [] else [m[0].key] + Keys(m[1..])
  }

  /** No key occurs twice. */
  predicate DistinctKeys<K(==), V>(m: seq<Entry<K, V>>) {
    forall i, j :: 0 <= i < j < |m| ==> m[i].key != m[j].key
  }

  /** `$m[$k]`, or null when the key is not set. */
  function Lookup<K(==), V>(m: seq<Entry<K, V>>, k: K): (v: Option<V>)
    ensures v.Some? <==> k in Keys(m)
    ensures v.Some? ==> exists i :: 0 <= i < |m| && m[i] == Entry(k, v.value)
  {
    if m == [] then None
    else if m[0].key == k then Some(m[0].value)
    else Lookup(m[1..], k)
  }

  /** `$m[$k] = $v` */
  function Put<K(==), V>(m: seq<Entry<K, V>>, k: K, v: V): (r: seq<Entry<K, V>>)
    ensures k in Keys(m) ==> Keys(r) == Keys(m)
    ensures k !in Keys(m) ==> Keys(r) == Keys(m) + [k]
  {
    if m == [] then [Entry(k, v)]
    else if m[0].key == k then [Entry(k, v)] + m[1..]
    else [m[0]] + Put(m[1..], k, v)
  }

  /** `unset($m[$k])` */
  function Unset<K(==), V>(m: seq<Entry<K, V>>, k: K): (r: seq<Entry<K, V>>)
    ensures k !in Keys(r)
    ensures forall x :: x in Keys(r) ==> x in Keys(m)
    ensures forall e :: e in r ==> e in m
    ensures |r| <= |m|
  {
    if m == [] then []
    else if m[0].key == k then Unset(m[1..], k)
    else [m[0]] + Unset(m[1..], k)
  }

  /** After `$m[$k] = $v`, `$m[$k]` is `$v` and every other key keeps its value. */
  lemma {:induction false} LookupPut<K, V>(m: seq<Entry<K, V>>, k: K, v: V, other: K)
    ensures Lookup(Put(m, k, v), k) == Some(v)
    ensures other != k ==> Lookup(Put(m, k, v), other) == Lookup(m, other)
  {
    if m != [] && m[0].key != k {
      LookupPut(m[1..], k, v, other);
    }
  }

  /** After `unset($m[$k])` the key is gone and every other key keeps its value. */
  lemma {:induction false} LookupUnset<K, V>(m: seq<Entry<K, V>>, k: K, other: K)
    ensures Lookup(Unset(m, k), k) == None
    ensures other != k ==> Lookup(Unset(m, k), other) == Lookup(m, other)
  {
    if m != [] {
      LookupUnset(m[1..], k, other);
    }
  }

  /** Assignment adds at most one entry and keeps the keys distinct. */
  lemma {:induction false} PutKeepsDistinct<K, V>(m: seq<Entry<K, V>>, k: K, v: V)
    requires DistinctKeys(m)
    ensures DistinctKeys(Put(m, k, v))
    ensures |Put(m, k, v)| == if k in Keys(m) then |m| else |m| + 1
  {
    if m != [] && m[0].key != k {
      PutKeepsDistinct(m[1..], k, v);
      var t := Put(m[1..], k, v);
      HeadKeyAbsent(m);
      forall j | 0 <= j < |t| ensures m[0].key != t[j].key {
        assert Keys(t)[j] == t[j].key;
      }
      ConsDistinct(m[0], t);
    }
  }

  /** In a map with distinct keys the first key is not among the rest. */
  lemma HeadKeyAbsent<K, V>(m: seq<Entry<K, V>>)
    requires m != [] && DistinctKeys(m)
    ensures DistinctKeys(m[1..]) && m[0].key !in Keys(m[1..])
  {
    forall j | 0 <= j < |m| - 1 ensures Keys(m[1..])[j] != m[0].key {
      assert Keys(m[1..])[j] == m[j + 1].key;
    }
  }

  /** An entry whose key is new in front of a map with distinct keys. */
  lemma ConsDistinct<K, V>(e: Entry<K, V>, t: seq<Entry<K, V>>)
    requires DistinctKeys(t) && forall j :: 0 <= j < |t| ==> e.key != t[j].key
    ensures DistinctKeys([e] + t)
  {
    var r := [e] + t;
    forall i, j | 0 <= i < j < |r| ensures r[i].key != r[j].key {
      assert r[j] == t[j - 1];
      if i > 0 { assert r[i] == t[i - 1]; }
    }
  }

  lemma {:induction false} UnsetKeepsDistinct<K, V>(m: seq<Entry<K, V>>, k: K)
    requires DistinctKeys(m)
    ensures DistinctKeys(Unset(m, k))
  {
    if m != [] {
      HeadKeyAbsent(m);
      UnsetKeepsDistinct(m[1..], k);
      if m[0].key != k {
        var t := Unset(m[1..], k);
        forall j | 0 <= j < |t| ensures m[0].key != t[j].key {
          assert Keys(t)[j] == t[j].key;
        }
        ConsDistinct(m[0], t);
      }
    }
  }

  /** The last write to a key wins, at the position of the first. */
  lemma {:induction false} LastWriteWins<K, V>(m: seq<Entry<K, V>>, k: K, v1: V, v2: V)
    ensures Put(Put(m, k, v1), k, v2) == Put(m, k, v2)
  {
    if m != [] && m[0].key != k {
      LastWriteWins(m[1..], k, v1, v2);
    }
  }

  /** Every entry after `$m[$k] = $v` is the new one or an entry of `m`. */
  lemma {:induction false} PutEntries<K, V>(m: seq<Entry<K, V>>, k: K, v: V)
    ensures forall e :: e in Put(m, k, v) ==> e == Entry(k, v) || e in m
  {
    if m != [] && m[0].key != k {
      PutEntries(m[1..], k, v);
    }
  }

  /** Assigning a new key appends the entry. */
  lemma {:induction false} PutAbsent<K, V>(m: seq<Entry<K, V>>, k: K, v: V)
    requires k !in Keys(m)
    ensures Put(m, k, v) == m + [Entry(k, v)]
  {
    if m != [] {
      assert Keys(m)[0] == m[0].key;
      assert k !in Keys(m[1..]) by {
        forall i | 0 <= i < |m| - 1
          ensures Keys(m[1..])[i] != k
        {
          assert Keys(m[1..])[i] == Keys(m)[i + 1];
        }
      }
      PutAbsent(m[1..], k, v);
      assert [m[0]] + (m[1..] + [Entry(k, v)]) == m + [Entry(k, v)];
    }
  }

  /** In a map with distinct keys an entry is what its key looks up. */
  lemma LookupEntry<K, V>(m: seq<Entry<K, V>>, e: Entry<K, V>)
    requires DistinctKeys(m) && e in m
    ensures Lookup(m, e.key) == Some(e.value)
  {
    var v := Lookup(m, e.key);
    var i :| 0 <= i < |m| && m[i] == e;
    assert Keys(m)[i] == e.key;
    var j :| 0 <= j < |m| && m[j] == Entry(e.key, v.value);
  }
}
