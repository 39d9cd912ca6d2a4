/** The rounding macros of threads/utility.h and the facts about them that the file index relies on. */
module Arith {

  function DivRoundUp(n: nat, s: nat): (q: nat)
    requires s > 0
  {
    n / s + if n % s > 0 then 1 else 0
  }

  /** How many sectors hold this many bytes. */
  function SectorCount(bytes: nat): (q: nat) {
    if bytes == 0 then 0 else if bytes <= 128 then 1 else 1 + SectorCount(bytes - 128)
  }

  lemma {:induction false} SectorCountIsCeiling(bytes: nat)
    ensures SectorCount(bytes) == DivRoundUp(bytes, 128)
  {
    if bytes > 128 {
      SectorCountIsCeiling(bytes - 128);
    }
  }

  /** SectorCount is the least number of sectors that hold the bytes. */
  lemma {:induction false} SectorCountLeast(bytes: nat, q: nat)
    ensures bytes <= q * 128 <==> SectorCount(bytes) <= q
  {
    if bytes > 128 && q > 0 {
      SectorCountLeast(bytes - 128, q - 1);
    }
  }
}
