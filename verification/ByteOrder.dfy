/**
 Byte strings in the order RocksDB keeps its rows, and the range that `PrefixRange` spans.
 */
module ByteOrder {
  import opened Options

  type Byte = x: int | 0 <= x < 256

  type Bytes = seq<Byte>

  /** Strict lexicographic order, the comparator of the database. */
  predicate Less(a: Bytes, b: Bytes) {
    if b == [] then false
    else if a == [] then true
    else if a[0] != b[0] then a[0] < b[0]
    else Less(a[1..], b[1..])
  }

  predicate AllMax(p: Bytes) {
    forall i | 0 <= i < |p| :: p[i] == 255
  }

  /** Upper bound of `PrefixRange(p)`: trailing 0xFF bytes are cut and the last remaining byte is
      incremented; there is no bound when nothing remains. */
  function Successor(p: Bytes): (s: Option<Bytes>)
    ensures s.None? <==> AllMax(p)
    ensures s.Some? ==> Less(p, s.value)
  {
    if p == [] then None
    else
      match Successor(p[1..])
      case Some(rest) => Some([p[0]] + rest)
      case None => if p[0] == 255 then None else Some([p[0] + 1])
  }

  ghost predicate InRange(k: Bytes, from: Bytes, to: Bytes) {
    !Less(k, from) && Less(k, to)
  }

  lemma {:induction false} NotBelowAllMax(t: Bytes, k: Bytes)
    requires AllMax(t)
    ensures !Less(k, t) <==> t <= k
  {
    if t == [] || k == [] {
    } else {
      NotBelowAllMax(t[1..], k[1..]);
      assert t <= k <==> t[0] == k[0] && t[1..] <= k[1..];
    }
  }

  /** The half-open range from a prefix to its successor holds exactly the keys that extend it. */
  lemma {:induction false} RangeIsPrefix(p: Bytes, k: Bytes)
    requires Successor(p).Some?
    ensures InRange(k, p, Successor(p).value) <==> p <= k
  {
    var s := Successor(p).value;
    if k == [] {
    } else {
      assert p <= k <==> p[0] == k[0] && p[1..] <= k[1..];
      if Successor(p[1..]).Some? {
        assert s[1..] == Successor(p[1..]).value;
        if k[0] == p[0] {
          RangeIsPrefix(p[1..], k[1..]);
        }
      } else {
        NotBelowAllMax(p[1..], k[1..]);
        assert s == [p[0] + 1];
        assert Less(k, s) <==> k[0] <= p[0];
        assert Less(k, p) <==> k[0] < p[0] || (k[0] == p[0] && Less(k[1..], p[1..]));
      }
    }
  }

  /** Two prefixes of one key are comparable. */
  lemma PrefixesOfOneKey(p: Bytes, q: Bytes, k: Bytes)
    requires p <= k && q <= k
    ensures p <= q || q <= p
  {
    if |p| <= |q| {
      assert p == k[..|p|] == q[..|p|];
    } else {
      assert q == k[..|q|] == p[..|q|];
    }
  }
}
