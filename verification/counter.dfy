/** The process-wide counter of the MicroTime source, made explicit state.
    Every round of `generate` advances it once; at the top of the platform's
    signed integer range it jumps to the bottom instead of overflowing. */
module Counter {

  /** `PHP_INT_MAX` on a 64-bit build. */
  const PHP_INT_MAX: int := 0x7FFF_FFFF_FFFF_FFFF

  /** `-1 * PHP_INT_MAX - 1`, the smallest value of a PHP integer. */
  const PHP_INT_MIN: int := -PHP_INT_MAX - 1

  /** Number of distinct PHP integers, 2^64. */
  const INT_RANGE: int := PHP_INT_MAX - PHP_INT_MIN + 1

  /** A value a PHP integer can hold. */
  predicate InRange(c: int) {
    PHP_INT_MIN <= c <= PHP_INT_MAX
  }

  /** Reference definition: `x` reduced into the PHP integer range the way a
      64-bit two's complement register wraps. */
  function Wrap(x: int): (r: int)
    ensures InRange(r)
    ensures (x - r) % INT_RANGE == 0
  {
    (x - PHP_INT_MIN) % INT_RANGE + PHP_INT_MIN
  }

  /** Values congruent modulo 2^64 wrap to the same integer, and an in-range
      value wraps to itself. */
  lemma WrapCongruent(x: int, y: int)
    ensures (x - y) % INT_RANGE == 0 <==> Wrap(x) == Wrap(y)
    ensures InRange(x) ==> Wrap(x) == x
  {
  }

  /** `counter()`: one advance of the counter. The value `counter()` returns is
      this new value, which is also what the counter holds afterwards. */
  function Advance(c: int): (r: int)
    ensures r <= PHP_INT_MAX
    ensures c >= PHP_INT_MAX ==> r == PHP_INT_MIN
    ensures InRange(c) ==> InRange(r) && r == Wrap(c + 1)
  {
    if c >= PHP_INT_MAX then PHP_INT_MIN else c + 1
  }

  /** The counter after `n` calls of `counter()`. */
  function AdvanceN(c: int, n: nat): int
    decreases n
  {
    if n == 0 then c else Advance(AdvanceN(c, n - 1))
  }

  /** Starting in range, `n` advances land on the two's complement sum `c + n`. */
  lemma {:induction false} AdvanceNIsWrappedSum(c: int, n: nat)
    requires InRange(c)
    ensures AdvanceN(c, n) == Wrap(c + n)
    ensures InRange(AdvanceN(c, n))
    decreases n
  {
    if n == 0 {
      WrapCongruent(c, c);
    } else {
      AdvanceNIsWrappedSum(c, n - 1);
      var prev := AdvanceN(c, n - 1);
      assert Advance(prev) == Wrap(prev + 1);
      WrapCongruent(prev + 1, c + n);
    }
  }

  /** Advancing `m` times and then `n` times is advancing `m + n` times. */
  lemma {:induction false} AdvanceNAdd(c: int, m: nat, n: nat)
    ensures AdvanceN(AdvanceN(c, m), n) == AdvanceN(c, m + n)
    decreases n
  {
    if n > 0 {
      AdvanceNAdd(c, m, n - 1);
    }
  }

  /** Starting in range, fewer than 2^64 further advances never revisit a value:
      the counter keeps successive rounds apart. */
  lemma CounterValuesDistinct(c: int, j: nat, k: nat)
    requires InRange(c)
    requires j < k < j + INT_RANGE
    ensures AdvanceN(c, j) != AdvanceN(c, k)
  {
    AdvanceNIsWrappedSum(c, j);
    AdvanceNIsWrappedSum(c, k);
    WrapCongruent(c + j, c + k);
  }

  /** Starting in range, exactly 2^64 advances bring the counter back. */
  lemma CounterPeriod(c: int)
    requires InRange(c)
    ensures AdvanceN(c, INT_RANGE as nat) == c
  {
    AdvanceNIsWrappedSum(c, INT_RANGE as nat);
    WrapCongruent(c + INT_RANGE, c);
  }
}
