/**
 A number below 256 as a byte.
 */
module Bytes {
  lemma SmallValue(r: nat)
    requires r < 256
    ensures ((r as bv8) as nat) == r
  {
  }
}
