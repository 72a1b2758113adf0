/** `calculate_final_score` of gitlab_mr_analyzer.py. Python's `/` on two
    integers is true division, so the mean is not truncated; it is modelled
    as an exact `real`. */
module Scoring {

  function Sum(scores: seq<int>): (s: int) {
    if |scores| == 0 then 0 else Sum(scores[..|scores| - 1]) + scores[|scores| - 1]
  }

  /** 10 for no scores, otherwise the exact mean: times the count it gives
      back the sum. */
  function FinalScore(scores: seq<int>): (r: real)
    ensures |scores| == 0 ==> r == 10.0
    ensures |scores| > 0 ==> r * (|scores| as real) == Sum(scores) as real
  {
    if |scores| == 0 then 10.0 else (Sum(scores) as real) / (|scores| as real)
  }

  /** A sum of scores between `lo` and `hi` lies between `n * lo` and `n * hi`. */
  lemma {:induction false} SumBounds(scores: seq<int>, lo: int, hi: int)
    requires forall i | 0 <= i < |scores| :: lo <= scores[i] <= hi
    ensures |scores| * lo <= Sum(scores) <= |scores| * hi
    decreases |scores|
  {
    if |scores| > 0 {
      var n := |scores|;
      var init := scores[..n - 1];
      assert forall i | 0 <= i < |init| :: init[i] == scores[i];
      SumBounds(init, lo, hi);
      BoundsStep(n, Sum(init), scores[n - 1], lo, hi);
    }
  }

  /** One more score within the bounds moves each bound of the sum by one score. */
  lemma BoundsStep(n: int, sum: int, x: int, lo: int, hi: int)
    requires (n - 1) * lo <= sum <= (n - 1) * hi && lo <= x <= hi
    ensures n * lo <= sum + x <= n * hi
  {
    assert n * lo == (n - 1) * lo + lo;
    assert n * hi == (n - 1) * hi + hi;
  }

  /** The final score of scores between `lo` and `hi` lies between them too;
      with no scores it is 10. */
  lemma FinalScoreBounds(scores: seq<int>, lo: int, hi: int)
    requires |scores| > 0
    requires forall i | 0 <= i < |scores| :: lo <= scores[i] <= hi
    ensures lo as real <= FinalScore(scores) <= hi as real
  {
    SumBounds(scores, lo, hi);
    var n := |scores|;
    MeanBounds(Sum(scores), n, FinalScore(scores), lo, hi);
  }

  /** A mean of `n` values whose sum lies between `n * lo` and `n * hi` lies
      between `lo` and `hi`. */
  lemma MeanBounds(sum: int, n: nat, r: real, lo: int, hi: int)
    requires n > 0 && r * (n as real) == sum as real
    requires n * lo <= sum <= n * hi
    ensures lo as real <= r <= hi as real
  {
    var m := n as real;
    assert (n * lo) as real == m * (lo as real);
    assert (n * hi) as real == m * (hi as real);
    ScaleCancel(lo as real, r, m);
    ScaleCancel(r, hi as real, m);
  }

  /** Dividing both sides of an inequality by the same positive number keeps it. */
  lemma ScaleCancel(a: real, b: real, m: real)
    requires m > 0.0 && a * m <= b * m
    ensures a <= b
  {
    assert (b - a) * m >= 0.0;
  }

  /** Scores all within 0..10 give a final score within 0..10, the empty
      list included. */
  lemma FinalScoreInRange(scores: seq<int>)
    requires forall i | 0 <= i < |scores| :: 0 <= scores[i] <= 10
    ensures 0.0 <= FinalScore(scores) <= 10.0
  {
    if |scores| > 0 {
      FinalScoreBounds(scores, 0, 10);
    }
  }

  /** Scores 7 and 8 average to 7.5: the result is not rounded to an integer. */
  lemma FinalScoreNotTruncated(scores: seq<int>)
    requires scores == [7, 8]
    ensures FinalScore(scores) == 7.5
  {
    assert scores[..1] == [7];
    assert [7][..0] == [];
    assert Sum([7]) == 7;
    assert Sum(scores) == 15;
  }
}
