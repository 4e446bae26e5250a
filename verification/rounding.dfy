/**
 * `Math.round` applied to an exact quotient `p / q` with `q > 0`: the integer
 * nearest to `p / q`, with an exact half rounded up (towards +infinity).
 */
module Rounding {

  /** The rounded quotient, characterised by `r - 1/2 <= p/q < r + 1/2`. */
  function RoundDiv(p: int, q: int): (r: int)
    requires q > 0
    ensures q * (2 * r - 1) <= 2 * p < q * (2 * r + 1)
  {
    var r := (2 * p + q) / (2 * q);
    assert 2 * p + q == (2 * q) * r + (2 * p + q) % (2 * q);
    r
  }

  /** Only one integer satisfies the characterisation, so it determines the rounded quotient. */
  lemma RoundDivUnique(p: int, q: int, r: int)
    requires q > 0
    requires q * (2 * r - 1) <= 2 * p < q * (2 * r + 1)
    ensures RoundDiv(p, q) == r
  {
    var s := RoundDiv(p, q);
    if s < r {
      MulMonotone(q, 2 * s + 1, 2 * r - 1);
    } else if s > r {
      MulMonotone(q, 2 * r + 1, 2 * s - 1);
    }
  }

  lemma MulMonotone(q: int, a: int, b: int)
    requires q > 0 && a <= b
    ensures q * a <= q * b
  {
  }

  /** An exact quotient rounds to itself. */
  lemma RoundDivExact(k: int, q: int)
    requires q > 0
    ensures RoundDiv(k * q, q) == k
  {
    RoundDivUnique(k * q, q, k);
  }

  /** Rounding is monotone in the dividend. */
  lemma RoundDivMonotone(p1: int, p2: int, q: int)
    requires q > 0 && p1 <= p2
    ensures RoundDiv(p1, q) <= RoundDiv(p2, q)
  {
    var r1, r2 := RoundDiv(p1, q), RoundDiv(p2, q);
    if r1 > r2 {
      MulMonotone(q, 2 * r2 + 1, 2 * r1 - 1);
    }
  }

  /** A quotient lying between two integers rounds to a value between them. */
  lemma RoundDivBetween(p: int, q: int, lo: int, hi: int)
    requires q > 0 && lo * q <= p <= hi * q
    ensures lo <= RoundDiv(p, q) <= hi
  {
    RoundDivExact(lo, q);
    RoundDivExact(hi, q);
    RoundDivMonotone(lo * q, p, q);
    RoundDivMonotone(p, hi * q, q);
  }
}
