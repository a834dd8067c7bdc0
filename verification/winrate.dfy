/**
 The win-rate percentage shown for a ranked opening, `Math.round((wins / count) * 100)`,
 in exact integer arithmetic.
 */
module Percentages {

  lemma MulMonotonic(a: nat, b: nat, c: nat)
    ensures b <= c ==> a * b <= a * c
  {
  }

  lemma DivBounds(n: nat, d: nat)
    requires d >= 1
    ensures d * (n / d) <= n < d * (n / d) + d
  {
  }

  /** The quotient `q` of `200 * wins + count` by `2 * count` is at most 100. */
  lemma RoundedAtMostHundred(wins: nat, count: nat, q: nat)
    requires 1 <= count && wins <= count
    requires 2 * count * q <= 200 * wins + count
    ensures q <= 100
  {
    if q >= 101 {
      MulMonotonic(2 * count, 101, q);
    }
  }

  /** That quotient reaches 100 exactly when the unrounded rate is at least 99.5. */
  lemma RoundedHundred(wins: nat, count: nat, q: nat)
    requires 1 <= count && wins <= count && q <= 100
    requires 2 * count * q <= 200 * wins + count < 2 * count * q + 2 * count
    ensures q == 100 <==> 200 * wins >= 199 * count
  {
    if q < 100 {
      MulMonotonic(2 * count, q + 1, 100);
      assert 2 * count * (q + 1) == 2 * count * q + 2 * count;
    }
  }

  /** That quotient is 0 exactly when the unrounded rate is below 0.5. */
  lemma RoundedZero(wins: nat, count: nat, q: nat)
    requires 1 <= count
    requires 2 * count * q <= 200 * wins + count < 2 * count * q + 2 * count
    ensures q == 0 <==> 200 * wins < count
  {
    if q >= 1 {
      MulMonotonic(2 * count, 1, q);
    }
  }

  /** The percentage of games won, rounded to the nearest integer with halves rounded up
      (what `Math.round` does for non-negative numbers). */
  function WinRate(wins: nat, count: nat): (r: nat)
    requires 1 <= count && wins <= count
    ensures r <= 100
    ensures 2 * count * r <= 200 * wins + count < 2 * count * r + 2 * count
    ensures r == 100 <==> 200 * wins >= 199 * count
    ensures r == 0 <==> 200 * wins < count
  {
    var q := (200 * wins + count) / (2 * count);
    DivBounds(200 * wins + count, 2 * count);
    RoundedAtMostHundred(wins, count, q);
    RoundedHundred(wins, count, q);
    RoundedZero(wins, count, q);
    q
  }

  /** Winning everything shows 100; winning nothing shows 0. */
  lemma WinRateExtremes(count: nat)
    requires 1 <= count
    ensures WinRate(count, count) == 100
    ensures WinRate(0, count) == 0
  {
  }

  /** 100 is also shown short of a clean sweep: 199 wins out of 200 round up to 100. */
  lemma NearSweepShowsHundred()
    ensures WinRate(199, 200) == 100
  {
  }

  /** More wins out of the same number of games never show a lower rate. */
  lemma WinRateMonotonic(w1: nat, w2: nat, count: nat)
    requires 1 <= count && w1 <= w2 <= count
    ensures WinRate(w1, count) <= WinRate(w2, count)
  {
    var r1 := WinRate(w1, count);
    var r2 := WinRate(w2, count);
    assert 2 * count * (r2 + 1) == 2 * count * r2 + 2 * count;
    assert 200 * w1 + count <= 200 * w2 + count;
    MulMonotonic(2 * count, r2 + 1, r1);
  }
}
