/** Wrapping 16-bit sequence numbers and 32-bit timestamps. */
module Circular {

  type Seq16 = x: int | 0 <= x < 0x10000

  type Time32 = x: int | 0 <= x < 0x1_0000_0000

  /** The sequence number k after a; k may be negative. */
  function Plus(a: Seq16, k: int): Seq16 {
    (a + k) % 0x10000
  }

  /** The forward distance from a to b. */
  function Dist(a: Seq16, b: Seq16): Seq16 {
    (b - a) % 0x10000
  }

  /** The age of timestamp t seen from now. */
  function Age(now: Time32, t: Time32): Time32 {
    (now - t) % 0x1_0000_0000
  }

  lemma PlusPlus(a: Seq16, j: int, k: int)
    ensures Plus(Plus(a, j), k) == Plus(a, j + k)
  {
  }

  lemma DistPlus(a: Seq16, k: int)
    requires 0 <= k < 0x10000
    ensures Dist(a, Plus(a, k)) == k
  {
  }

  lemma PlusDist(a: Seq16, b: Seq16)
    ensures Plus(a, Dist(a, b)) == b
  {
  }

  lemma DistStep(a: Seq16, b: Seq16)
    requires a != b
    ensures Dist(a, b) > 0 && Dist(Plus(a, 1), b) == Dist(a, b) - 1
  {
  }

  lemma DistSelf(a: Seq16)
    ensures Dist(a, a) == 0
  {
  }

  lemma DistToNext(a: Seq16, b: Seq16)
    ensures Dist(a, Plus(b, 1)) == (b + 1 - a) % 0x10000
  {
  }
}
