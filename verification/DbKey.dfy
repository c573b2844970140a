/** Database keys: a store prefix, optional bucket bytes, then the row's own key. */
module DbKeys {
  import opened ByteOrder

  /** Path of a row inside a bucket of a store. */
  function BucketPath(prefix: Bytes, bucket: Bytes, key: Bytes): Bytes {
    prefix + bucket + key
  }

  class DbKey {
    var path: Bytes
    var prefixLen: nat

    constructor (prefix: Bytes, key: Bytes)
      ensures path == prefix + key
      ensures prefixLen == |prefix|
    {
      path := prefix + key;
      prefixLen := |prefix|;
    }

    static method PrefixOnly(prefix: Bytes) returns (k: DbKey)
      ensures fresh(k) && k.path == prefix && k.prefixLen == |prefix|
    {
      k := new DbKey(prefix, []);
    }

    static method NewWithBucket(prefix: Bytes, bucket: Bytes, key: Bytes) returns (k: DbKey)
      ensures fresh(k)
      ensures k.path == BucketPath(prefix, bucket, key)
      // `add_key` counts the key bytes into the prefix length as well
      ensures k.prefixLen == |k.path|
    {
      k := PrefixOnly(prefix);
      k.AddBucket(bucket);
      k.AddKey(key);
    }

    method AddBucket(bucket: Bytes)
      modifies this
      ensures path == old(path) + bucket
      ensures prefixLen == old(prefixLen) + |bucket|
    {
      path := path + bucket;
      prefixLen := prefixLen + |bucket|;
    }

    method AddKey(key: Bytes)
      modifies this
      ensures path == old(path) + key
      ensures prefixLen == old(prefixLen) + |key|
    {
      path := path + key;
      prefixLen := prefixLen + |key|;
    }
  }

  /** With buckets of one length, no two (bucket, key) pairs share a row. */
  lemma BucketPathInjective(prefix: Bytes, b1: Bytes, k1: Bytes, b2: Bytes, k2: Bytes)
    requires |b1| == |b2|
    requires BucketPath(prefix, b1, k1) == BucketPath(prefix, b2, k2)
    ensures b1 == b2 && k1 == k2
  {
    var p, n := BucketPath(prefix, b1, k1), |prefix|;
    assert b1 == p[n..n + |b1|] == b2;
    assert k1 == p[n + |b1|..] == k2;
  }

  lemma PathTail(prefix: Bytes, bucket: Bytes, key: Bytes)
    ensures BucketPath(prefix, bucket, key)[|prefix|..] == bucket + key
  {
  }

  /** Buckets of different lengths can collide, whenever one is a prefix of the other: for every
      such pair some keys give the same row, and for every other pair none do. */
  lemma BucketPathCollision(prefix: Bytes, b1: Bytes, b2: Bytes)
    requires b1 != b2
    ensures (exists k1, k2 :: BucketPath(prefix, b1, k1) == BucketPath(prefix, b2, k2)) <==> b1 <= b2 || b2 <= b1
  {
    if b1 <= b2 {
      assert BucketPath(prefix, b1, b2[|b1|..]) == BucketPath(prefix, b2, []);
    } else if b2 <= b1 {
      assert BucketPath(prefix, b1, []) == BucketPath(prefix, b2, b1[|b2|..]);
    }
    if k1, k2 :| BucketPath(prefix, b1, k1) == BucketPath(prefix, b2, k2) {
      PathTail(prefix, b1, k1);
      PathTail(prefix, b2, k2);
      PrefixesOfOneKey(b1, b2, b1 + k1);
    }
  }
}
