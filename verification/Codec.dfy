/** The serialiser of stored values. */
module Codecs {
  import opened Options
  import opened ByteOrder

  datatype Codec<!V> = Codec(ser: V -> Bytes, de: Bytes -> Option<V>)

  /** Everything serialised can be read back. */
  ghost predicate Lossless<V(!new)>(c: Codec<V>) {
    forall v :: c.de(c.ser(v)) == Some(v)
  }
}
