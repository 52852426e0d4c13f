/** Python's `round`: to the nearest integer, ties to the even one. */
module Rounding {

  /** `r` is within one half of `x`, and even where two integers are equally near. */
  predicate Nearest(x: real, r: int) {
    -0.5 <= x - r as real <= 0.5 && (x - r as real == 0.5 || x - r as real == -0.5 ==> r % 2 == 0)
  }

  function Round(x: real): (r: int)
    ensures Nearest(x, r)
  {
    var low := x.Floor;
    var part := x - low as real;
    if part < 0.5 || (part == 0.5 && low % 2 == 0) then low else low + 1
  }

  /** The two bounds and the tie rule determine the result. */
  lemma RoundUnique(x: real, r: int)
    requires Nearest(x, r)
    ensures Round(x) == r
  {
    var q := Round(x);
    assert -1.0 <= (q - r) as real <= 1.0;
  }

  lemma RoundInteger(n: int)
    ensures Round(n as real) == n
  {
    RoundUnique(n as real, n);
  }

  lemma NoTieInversion(x: real, y: real, p: int, q: int)
    requires x <= y && Nearest(x, p) && Nearest(y, q)
    ensures p <= q
  {
  }

  lemma RoundMonotone(x: real, y: real)
    requires x <= y
    ensures Round(x) <= Round(y)
  {
    NoTieInversion(x, y, Round(x), Round(y));
  }

  /** Rounding commutes with even shifts and with reflection; an odd shift would break ties differently. */
  lemma RoundShift(x: real, even: int)
    requires even % 2 == 0
    ensures Round(x + even as real) == Round(x) + even
    ensures Round(even as real - x) == even - Round(x)
  {
    hide Round;
    var half := even / 2;
    assert even == 2 * half;
    var r := Round(x);
    EvenShift(r, half);
    RoundUnique(x + even as real, r + even);
    RoundUnique(even as real - x, even - r);
  }

  lemma EvenShift(r: int, half: int)
    ensures (r + 2 * half) % 2 == r % 2 && (2 * half - r) % 2 == r % 2
  {
  }

  /** `round(x, 6)`. */
  function Round6(x: real): (r: real)
    ensures -0.0000005 <= x - r <= 0.0000005
  {
    Round(x * 1000000.0) as real / 1000000.0
  }

  /** It is a whole number of millionths, the nearest one. */
  lemma Round6Nearest(x: real) returns (k: int)
    ensures Round6(x) * 1000000.0 == k as real && Nearest(x * 1000000.0, k)
  {
    k := Round(x * 1000000.0);
  }

  lemma Round6Monotone(x: real, y: real)
    requires x <= y
    ensures Round6(x) <= Round6(y)
  {
    RoundMonotone(x * 1000000.0, y * 1000000.0);
  }

  lemma Round6Zero()
    ensures Round6(0.0) == 0.0
  {
    RoundInteger(0);
  }
}
