/**
 * Python's built-in round() applied to an exact quotient, and the truthiness-guarded
 * mean that the rating handlers report ("round(avg) if avg else None").
 * Averages are exact rationals sum/count here, not floats.
 */
module Rounding {
  import opened Wrappers

  /** k is the integer nearest to n / d, and the even one when n / d lies halfway. */
  predicate NearestEven(n: int, d: int, k: int)
    requires d > 0
  {
    && 2 * (n - k * d) <= d
    && 2 * (k * d - n) <= d
    && (2 * (n - k * d) == d || 2 * (k * d - n) == d ==> k % 2 == 0)
  }

  /** round(n / d) with ties to even, on exact integers. */
  function RoundHalfEven(n: int, d: int): (k: int)
    requires d > 0
    ensures NearestEven(n, d, k)
  {
    var q, r := n / d, n % d;
    assert n == q * d + r;
    assert (q + 1) * d == q * d + d;
    if 2 * r < d then q
    else if 2 * r > d then q + 1
    else if q % 2 == 0 then q
    else q + 1
  }

  /** NearestEven determines its integer: round-half-even has exactly one answer. */
  lemma NearestEvenUnique(n: int, d: int, k: int, j: int)
    requires d > 0
    requires NearestEven(n, d, k) && NearestEven(n, d, j)
    ensures k == j
  {
    var lo, hi := if k < j then k else j, if k < j then j else k;
    // both lie within d/2 of n, so the two multiples of d are at most d apart
    assert hi * d - lo * d <= d;
    AdjacentMultiples(lo, hi, d);
    // one apart would put both exactly d/2 from n: a tie, where both must be even
    assert hi != lo + 1;
  }

  /** Multiples lo * d <= hi * d that are at most d apart belong to equal or adjacent factors. */
  lemma AdjacentMultiples(lo: int, hi: int, d: int)
    requires d > 0 && lo <= hi && hi * d - lo * d <= d
    ensures hi == lo || (hi == lo + 1 && hi * d == lo * d + d)
  {
    var g := hi - lo;
    assert hi * d - lo * d == g * d;
    assert g >= 2 ==> g * d == (g - 2) * d + 2 * d;
    assert g == 1 ==> g * d == d;
  }

  /** The only integer that is nearest to n / d, ties to even, is RoundHalfEven(n, d). */
  lemma RoundHalfEvenCharacterised(n: int, d: int, k: int)
    requires d > 0
    ensures NearestEven(n, d, k) <==> k == RoundHalfEven(n, d)
  {
    if NearestEven(n, d, k) {
      NearestEvenUnique(n, d, k, RoundHalfEven(n, d));
    }
  }

  function Sum(vs: seq<int>): int
  {
    if vs == [] then 0 else Sum(vs[..|vs| - 1]) + vs[|vs| - 1]
  }

  /**
   * The reported average of a set of rating values: None when there is nothing to
   * average or when the mean is 0 (a falsy float), otherwise the mean rounded half-to-even.
   */
  function MeanRounded(vs: seq<int>): (a: Option<int>)
    ensures a.None? <==> |vs| == 0 || Sum(vs) == 0
    ensures a.Some? ==> NearestEven(Sum(vs), |vs|, a.value)
  {
    if |vs| == 0 || Sum(vs) == 0 then None else Some(RoundHalfEven(Sum(vs), |vs|))
  }
}
