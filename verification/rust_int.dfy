/** The two Rust integer operations the pieces use, `% 4` and `/ 2`. Rust
    truncates toward zero, so on a negative operand the remainder is not
    positive and the quotient rounds up. */
module RustInt {

  /** `a % 4` on a Rust signed integer. */
  function RemFour(a: int): (r: int)
    ensures a >= 0 ==> 0 <= r < 4
    ensures a < 0 ==> -4 < r <= 0
  {
    if a >= 0 then a % 4 else -((-a) % 4)
  }

  /** `a / 2` on a Rust signed integer. */
  function Half(a: int): int {
    if a >= 0 then a / 2 else -((-a) / 2)
  }

  /** Quotient and remainder reassemble the dividend; the quotient has the
      dividend's sign. */
  lemma DivRem(a: int)
    ensures (if a >= 0 then a / 4 else -((-a) / 4)) * 4 + RemFour(a) == a
    ensures Half(a) * 2 + (if a >= 0 then a % 2 else -((-a) % 2)) == a
    ensures a >= 0 ==> Half(a) >= 0
    ensures a <= 0 ==> Half(a) <= 0
  {
  }

  /** A value already in range is its own remainder, so reducing twice is
      reducing once; on a non-negative value both operations agree with the
      Euclidean ones. */
  lemma RemFourIdempotent(a: int)
    ensures -4 < a < 4 ==> RemFour(a) == a
    ensures RemFour(RemFour(a)) == RemFour(a)
    ensures a >= 0 ==> RemFour(a) == a % 4 && Half(a) == a / 2
  {
  }

  /** The case that differs from the Euclidean operators. */
  lemma NegativeOperand()
    ensures RemFour(-1) == -1 && (-1) % 4 == 3
    ensures Half(-1) == 0 && (-1) / 2 == -1
  {
  }
}
