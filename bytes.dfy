/**
 * Conversions between byte values and the integers they stand for. They sit
 * in a module of their own, apart from the frame layouts of Ft260Frames that
 * use them, so that proving them does not bring the layouts' bit-vector
 * definitions into the solver's context.
 */
module Ft260Bytes {

  /** A length below 256 survives being stored in one byte. */
  lemma LengthByte(n: nat)
    requires n < 256
    ensures (n as bv8) as int == n
  {
    assert n % 256 == n;
  }

  /** A byte survives being widened to an integer and narrowed back. */
  lemma ByteRoundTrip(b: bv8)
    ensures (b as int) as bv8 == b
  {
  }
}
