/**
 * Kotlin's `Int`: a 32-bit two's-complement integer whose `+`, `-`, `+=`
 * and `--` wrap around silently.
 */
module Int32Arith {

  const MIN: int := -0x8000_0000
  const MAX: int := 0x7fff_ffff
  /** Number of distinct `Int` values, 2^32. */
  const MODULUS: int := 0x1_0000_0000

  predicate IsInt32(x: int) {
    MIN <= x <= MAX
  }

  /**
   * The `Int` that the mathematical value `x` wraps to: the one `Int` that
   * differs from `x` by a multiple of 2^32.
   */
  function Wrap32(x: int): (r: int)
    ensures IsInt32(r)
    ensures IsInt32(x) ==> r == x
    ensures (r - x) % MODULUS == 0
  {
    var q := (x - MIN) / MODULUS;
    assert x - MIN == q * MODULUS + (x - MIN) % MODULUS;
    assert (x - MIN) % MODULUS + MIN - x == -q * MODULUS;
    (x - MIN) % MODULUS + MIN
  }

  /** Overflow past either end of the range comes back in at the other. */
  lemma WrapAtTheEnds()
    ensures Wrap32(MAX + 1) == MIN && Wrap32(MAX + 3) == MIN + 2
    ensures Wrap32(MIN - 1) == MAX
  {
  }

  /**
   * The test `chances - 1 == 0`, evaluated in `Int` arithmetic, holds for
   * exactly one `Int`: 1.  In particular `Int.MIN_VALUE - 1` wraps to
   * `Int.MAX_VALUE`, not to 0.
   */
  lemma DecrementReachesZeroOnlyFromOne(c: int)
    requires IsInt32(c)
    ensures Wrap32(c - 1) == 0 <==> c == 1
  {
    if c == MIN {
      assert Wrap32(c - 1) == MAX;
    }
  }

  /** Subtracting a multiple of 2^32 does not change a remainder modulo 2^32. */
  lemma ModuloDropsMultiple(z: int, q: int)
    ensures (z - q * MODULUS) % MODULUS == z % MODULUS
  {
    var d := z / MODULUS;
    assert z - q * MODULUS == (d - q) * MODULUS + z % MODULUS;
  }
}
