/**
 * The wrapping 32-bit counters the firmware uses for milliseconds and for
 * source sequence numbers, and what a difference of two of them says about the
 * unbounded quantities they stand for.
 */
module Clock32 {

  const TWO32: int := 0x1_0000_0000
  const HALF_RANGE: int := 0x8000_0000

  type u32 = x: int | 0 <= x < 0x1_0000_0000

  /** Unsigned 32-bit subtraction. */
  function Sub(a: u32, b: u32): u32 {
    (a - b) % TWO32
  }

  function Wrap(t: nat): u32 {
    t % TWO32
  }

  /** "candidate is after previous", read in the forward half of the range. */
  predicate StrictlyNewer(candidate: u32, previous: u32) {
    var distance := Sub(candidate, previous);
    distance != 0 && distance < HALF_RANGE
  }

  /** The difference of two wrapped instants is the wrapped real distance. */
  lemma SubOfWrapped(later: nat, earlier: nat)
    requires earlier <= later
    ensures Sub(Wrap(later), Wrap(earlier)) == Wrap(later - earlier)
  {
  }
}
