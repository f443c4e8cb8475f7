/** The conversion between small integers and octets. */
module Bytes {

  /** A value below 256 converts to an octet and back unchanged. */
  lemma ByteValue(v: int)
    requires 0 <= v < 256
    ensures (v as bv8) as int == v
  {
  }
}
