/** Grouping and join keys: equality, hashing, and the hash index over them (src/core/executor.cpp). */
module Keys {
  import opened Common
  import opened Values

  type Key = seq<Value>

  /** grouping_value_equal: NULL equals NULL; otherwise the same alternative and an equal value. */
  predicate GroupingEqual(a: Value, b: Value) {
    if a.Null? || b.Null? then a.Null? && b.Null?
    else if a.Double? && b.Double? then DoubleEq(a.bits, b.bits)
    else a == b
  }

  predicate KeysEqual(a: Key, b: Key) {
    |a| == |b| && forall i :: 0 <= i < |a| ==> GroupingEqual(a[i], b[i])
  }

  predicate NaNValue(v: Value) {
    v.Double? && IsNaN(v.bits)
  }

  predicate HasNaN(key: Key) {
    exists i :: 0 <= i < |key| && NaNValue(key[i])
  }

  /** key_contains_nan. */
  method ContainsNaN(key: Key) returns (found: bool)
    ensures found == HasNaN(key)
  {
    for i := 0 to |key|
      invariant forall k :: 0 <= k < i ==> !NaNValue(key[k])
    {
      if NaNValue(key[i]) {
        return true;
      }
    }
    return false;
  }

  lemma KeysReflexive(a: Key)
    ensures KeysEqual(a, a) <==> !HasNaN(a)
  {
    if HasNaN(a) {
      var i :| 0 <= i < |a| && NaNValue(a[i]);
      assert !GroupingEqual(a[i], a[i]);
    }
  }

  lemma KeysSymmetric(a: Key, b: Key)
    ensures KeysEqual(a, b) == KeysEqual(b, a)
  {
  }

  lemma KeysTransitive(a: Key, b: Key, c: Key)
    requires KeysEqual(a, b) && KeysEqual(b, c)
    ensures KeysEqual(a, c)
  {
    forall i | 0 <= i < |a| ensures GroupingEqual(a[i], c[i]) {
      assert GroupingEqual(a[i], b[i]) && GroupingEqual(b[i], c[i]);
    }
  }

  // ---------------------------------------------------------------- hashing

  /** The value passed to std::hash: -0.0 becomes 0.0. */
  function Normal(v: Value): Value {
    if v.Double? && DoubleEq(v.bits, 0) then Double(0) else v
  }

  /** value_hash, for any std::hash on the alternatives. */
  function ValueHash(prim: Value -> bv64, v: Value): bv64 {
    if v.Null? then 0 else prim(Normal(v))
  }

  function Mix(seed: bv64, h: bv64): bv64 {
    (seed ^ h) * 1099511628211
  }

  function MixAll(prim: Value -> bv64, key: Key, seed: bv64): bv64 {
    if key == [] then seed else MixAll(prim, key[1..], Mix(seed, ValueHash(prim, key[0])))
  }

  /** ValueKeyHash. */
  function KeyHash(prim: Value -> bv64, key: Key): nat {
    MixAll(prim, key, 1469598103934665603) as nat
  }

  lemma NormalAgrees(a: Value, b: Value)
    requires GroupingEqual(a, b)
    ensures Normal(a) == Normal(b)
  {
  }

  lemma {:induction false} MixAllAgrees(prim: Value -> bv64, a: Key, b: Key, seed: bv64)
    requires KeysEqual(a, b)
    ensures MixAll(prim, a, seed) == MixAll(prim, b, seed)
    decreases |a|
  {
    if a != [] {
      NormalAgrees(a[0], b[0]);
      assert GroupingEqual(a[0], b[0]);
      assert KeysEqual(a[1..], b[1..]) by {
        forall i | 0 <= i < |a| - 1 ensures GroupingEqual(a[1..][i], b[1..][i]) {
          assert GroupingEqual(a[i + 1], b[i + 1]);
        }
      }
      MixAllAgrees(prim, a[1..], b[1..], Mix(seed, ValueHash(prim, a[0])));
    }
  }

  /** Equal keys never fall into different buckets, the two zeros included. */
  lemma EqualKeysHashEqual(prim: Value -> bv64, a: Key, b: Key)
    requires KeysEqual(a, b)
    ensures KeyHash(prim, a) == KeyHash(prim, b)
  {
    MixAllAgrees(prim, a, b, 1469598103934665603);
  }

  // ---------------------------------------------------------------- the hash index

  datatype Entry<+T> = Entry(key: Key, item: T)

  /** An unordered map: one bucket per hash value, keys compared inside the bucket only. */
  type Index<T> = map<nat, seq<Entry<T>>>

  function Bucket<T>(ix: Index<T>, hash: nat): seq<Entry<T>> {
    if hash in ix then ix[hash] else []
  }

  function FindEntry<T>(bucket: seq<Entry<T>>, key: Key): Option<T> {
    if bucket == [] then None
    else if KeysEqual(bucket[0].key, key) then Some(bucket[0].item)
    else FindEntry(bucket[1..], key)
  }

  function PutEntry<T>(bucket: seq<Entry<T>>, key: Key, item: T): seq<Entry<T>> {
    if bucket == [] then [Entry(key, item)]
    else if KeysEqual(bucket[0].key, key) then [Entry(bucket[0].key, item)] + bucket[1..]
    else [bucket[0]] + PutEntry(bucket[1..], key, item)
  }

  function Find<T>(ix: Index<T>, prim: Value -> bv64, key: Key): Option<T> {
    FindEntry(Bucket(ix, KeyHash(prim, key)), key)
  }

  function PutAt<T>(ix: Index<T>, hash: nat, key: Key, item: T): Index<T> {
    ix[hash := PutEntry(Bucket(ix, hash), key, item)]
  }

  function Put<T>(ix: Index<T>, prim: Value -> bv64, key: Key, item: T): Index<T> {
    PutAt(ix, KeyHash(prim, key), key, item)
  }

  lemma {:induction false} FindPutSame<T>(bucket: seq<Entry<T>>, key: Key, item: T, other: Key)
    requires KeysEqual(key, other)
    ensures FindEntry(PutEntry(bucket, key, item), other) == Some(item)
  {
    if bucket != [] {
      if KeysEqual(bucket[0].key, key) {
        KeysTransitive(bucket[0].key, key, other);
      } else {
        if KeysEqual(bucket[0].key, other) {
          KeysSymmetric(key, other);
          KeysTransitive(bucket[0].key, other, key);
        }
        FindPutSame(bucket[1..], key, item, other);
        assert PutEntry(bucket, key, item)[1..] == PutEntry(bucket[1..], key, item);
      }
    }
  }

  lemma {:induction false} FindPutOther<T>(bucket: seq<Entry<T>>, key: Key, item: T, other: Key)
    requires !KeysEqual(key, other)
    ensures FindEntry(PutEntry(bucket, key, item), other) == FindEntry(bucket, other)
  {
    if bucket != [] {
      if KeysEqual(bucket[0].key, key) {
        if KeysEqual(bucket[0].key, other) {
          KeysSymmetric(bucket[0].key, key);
          KeysTransitive(key, bucket[0].key, other);
        }
        assert PutEntry(bucket, key, item)[1..] == bucket[1..];
      } else {
        FindPutOther(bucket[1..], key, item, other);
        assert PutEntry(bucket, key, item)[1..] == PutEntry(bucket[1..], key, item);
      }
    }
  }

  lemma FindPutAt<T>(ix: Index<T>, hash: nat, key: Key, item: T, hash': nat, other: Key)
    requires KeysEqual(key, other) ==> hash == hash'
    ensures FindEntry(Bucket(PutAt(ix, hash, key, item), hash'), other) ==
            if KeysEqual(key, other) then Some(item) else FindEntry(Bucket(ix, hash'), other)
  {
    if KeysEqual(key, other) {
      FindPutSame(Bucket(ix, hash), key, item, other);
    } else {
      FindPutOther(Bucket(ix, hash), key, item, other);
    }
  }

  /** The index is a map up to key equality: hashing hides no entry and confuses no two keys. */
  lemma FindPut<T>(ix: Index<T>, prim: Value -> bv64, key: Key, item: T, other: Key)
    ensures Find(Put(ix, prim, key, item), prim, other) ==
            if KeysEqual(key, other) then Some(item) else Find(ix, prim, other)
  {
    if KeysEqual(key, other) {
      EqualKeysHashEqual(prim, key, other);
    }
    FindPutAt(ix, KeyHash(prim, key), key, item, KeyHash(prim, other), other);
  }
}
