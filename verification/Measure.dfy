/** Fixed-width arithmetic: the 64-bit cells wrap, and so does every running total kept in them.
    `lo` is the least value of the measure (0 for u64, -2^63 for i64). */
module Measure {
  const TWO_TO_THE_64: int := 0x1_0000_0000_0000_0000

  /** The representative of `x` in the measure's range. */
  function Wrap(lo: int, x: int): (r: int)
    ensures lo <= r < lo + TWO_TO_THE_64
    ensures (r - x) % TWO_TO_THE_64 == 0
    ensures lo <= x < lo + TWO_TO_THE_64 ==> r == x
  {
    lo + (x - lo) % TWO_TO_THE_64
  }

  function Hi(lo: int): int {
    lo + TWO_TO_THE_64 - 1
  }

  lemma WrapIsUnique(lo: int, x: int, r: int)
    requires lo <= r < lo + TWO_TO_THE_64
    requires (r - x) % TWO_TO_THE_64 == 0
    ensures r == Wrap(lo, x)
  {
    var w := Wrap(lo, x);
    assert (r - w) % TWO_TO_THE_64 == 0;
  }

  /** Wrapping at every step and wrapping once at the end agree. */
  lemma WrapAccumulates(lo: int, x: int, y: int)
    ensures Wrap(lo, Wrap(lo, x) + y) == Wrap(lo, x + y)
  {
    WrapIsUnique(lo, x + y, Wrap(lo, Wrap(lo, x) + y));
  }

  /** Whole laps do not matter. */
  lemma WrapForgetsLaps(lo: int, x: int, k: int)
    ensures Wrap(lo, x + k * TWO_TO_THE_64) == Wrap(lo, x)
  {
    var a, b := Laps(lo, x), Laps(lo, x + k * TWO_TO_THE_64);
    var m := k + a - b;
    assert Wrap(lo, x + k * TWO_TO_THE_64) == Wrap(lo, x) + m * TWO_TO_THE_64;
    assert -1 < m < 1;
  }

  /** Equality modulo 2^64. */
  predicate Congruent(x: int, y: int) {
    (x - y) % TWO_TO_THE_64 == 0
  }

  /** How many times 2^64 fits between a wrapped value and the value it stands for. */
  function Laps(lo: int, x: int): (k: int)
    ensures x == Wrap(lo, x) + k * TWO_TO_THE_64
  {
    (x - lo) / TWO_TO_THE_64
  }
}
