/**
  The statistics shown on the stats page: how many games were won and the
  average number of guesses those games took, rounded to an integer the way
  `Math.round` rounds (to the nearest integer, halves upwards).
 */
module Stats {

  /** The average shown for `totalGuesses` guesses spread over `gamesWon`
      games: 0 before any game is won, otherwise the integer nearest to
      `totalGuesses / gamesWon`, a half rounded up. */
  function Average(totalGuesses: int, gamesWon: int): (avg: int)
    ensures gamesWon <= 0 ==> avg == 0
    ensures gamesWon > 0 ==> IsRounded(avg, totalGuesses, gamesWon)
  {
    if gamesWon > 0 then
      var q := (2 * totalGuesses + gamesWon) / (2 * gamesWon);
      DivisionBounds(2 * totalGuesses + gamesWon, 2 * gamesWon);
      q
    else 0
  }

  /** `r` is `num / den` rounded half up: r - 1/2 <= num / den < r + 1/2. */
  predicate IsRounded(r: int, num: int, den: int)
    requires den > 0
  {
    den * (2 * r - 1) <= 2 * num < den * (2 * r + 1)
  }

  lemma DivisionBounds(a: int, b: int)
    requires b > 0
    ensures b * (a / b) <= a < b * (a / b) + b
  {
  }

  /** Only one integer is the rounded quotient, so the contract of
      `Average` fixes its value. */
  lemma RoundingIsUnique(r: int, s: int, num: int, den: int)
    requires den > 0 && IsRounded(r, num, den) && IsRounded(s, num, den)
    ensures r == s
  {
    MultiplyCancel(den, 2 * r - 1, 2 * s + 1);
    MultiplyCancel(den, 2 * s - 1, 2 * r + 1);
  }

  lemma MultiplyCancel(k: int, x: int, y: int)
    requires k > 0 && k * x < k * y
    ensures x < y
  {
    if x >= y {
      MultiplyMonotone(k, y, x);
    }
  }

  lemma MultiplyMonotone(k: int, x: int, y: int)
    requires k > 0 && x <= y
    ensures k * x <= k * y
  {
  }

  /** The sum of the guess counts of the games won. */
  function Sum(counts: seq<nat>): nat {
    if counts == [] then 0 else Sum(counts[..|counts| - 1]) + counts[|counts| - 1]
  }

  /** When every won game took between `lo` and `hi` guesses, so does the
      rounded average. */
  lemma {:induction false} AverageWithinCounts(counts: seq<nat>, lo: int, hi: int)
    requires |counts| > 0
    requires forall i :: 0 <= i < |counts| ==> lo <= counts[i] <= hi
    ensures lo <= Average(Sum(counts), |counts|) <= hi
  {
    SumBounds(counts, lo, hi);
    RoundedWithin(Average(Sum(counts), |counts|), Sum(counts), |counts|, lo, hi);
  }

  /** Rounding a quotient that lies between `lo` and `hi` stays between them. */
  lemma RoundedWithin(r: int, num: int, den: int, lo: int, hi: int)
    requires den > 0 && IsRounded(r, num, den)
    requires den * lo <= num <= den * hi
    ensures lo <= r <= hi
  {
    assert 2 * (den * lo) == den * (2 * lo);
    MultiplyCancel(den, 2 * lo, 2 * r + 1);
    assert 2 * (den * hi) + den == den * (2 * hi + 1);
    MultiplyCancel(den, 2 * r - 1, 2 * hi + 1);
  }

  lemma {:induction false} SumBounds(counts: seq<nat>, lo: int, hi: int)
    requires forall i :: 0 <= i < |counts| ==> lo <= counts[i] <= hi
    ensures |counts| * lo <= Sum(counts) <= |counts| * hi
  {
    if counts != [] {
      var init := counts[..|counts| - 1];
      SumBounds(init, lo, hi);
      assert |counts| * lo == |init| * lo + lo;
      assert |counts| * hi == |init| * hi + hi;
    }
  }
}
