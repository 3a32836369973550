/**
 * computed_score: the single number derived from a rating, or None when the
 * genre is marked special or one of the two scores is missing. Scores are
 * exact reals here; IEEE rounding of main.py's floats is not modelled.
 */
module Scoring {
  import opened Wrappers

  /** Weights used when the "flou" (ambiguous) flag is set. */
  const FlouSkipWeight: real := 0.35
  const FlouKiffWeight: real := 0.65
  /** Weight of each score otherwise. */
  const EvenWeight: real := 0.5

  predicate Between(x: real, a: real, b: real) {
    (a <= x <= b) || (b <= x <= a)
  }

  /** Flags are the INTEGER columns of the ratings table and count as set when
      non-zero, as Python's truthiness does. */
  function ComputedScore(skip: Option<int>, kiff: Option<int>, special: int, flou: int): (r: Option<real>)
    ensures r.None? <==> special != 0 || skip.None? || kiff.None?
    ensures r.Some? ==> Between(r.value, skip.value as real, kiff.value as real)
  {
    if special != 0 then None
    else if skip.None? || kiff.None? then None
    else if flou != 0 then Some(FlouSkipWeight * skip.value as real + FlouKiffWeight * kiff.value as real)
    else Some(EvenWeight * skip.value as real + EvenWeight * kiff.value as real)
  }

  /** The same rule in integer hundredths: 35 skip + 65 kiff with flou, 50 skip
      + 50 kiff without, and nothing for a special genre or a missing score. */
  lemma ComputedScoreInHundredths(skip: Option<int>, kiff: Option<int>, special: int, flou: int)
    ensures var r := ComputedScore(skip, kiff, special, flou);
            r.Some? ==>
              100.0 * r.value == (if flou != 0 then 35 * skip.value + 65 * kiff.value
                                  else 50 * skip.value + 50 * kiff.value) as real
  {
  }

  /** With both scores in the 0..10 range the computed score is in it too. */
  lemma ComputedScoreInRange(skip: int, kiff: int, special: int, flou: int)
    requires 0 <= skip <= 10 && 0 <= kiff <= 10
    ensures var r := ComputedScore(Some(skip), Some(kiff), special, flou);
            r.Some? ==> 0.0 <= r.value <= 10.0
  {
  }

  /** The flou flag moves the result towards kiff by 15% of the gap between the
      two scores: it raises the score when kiff > skip and lowers it otherwise. */
  lemma FlouShiftsTowardsKiff(skip: int, kiff: int)
    ensures ComputedScore(Some(skip), Some(kiff), 0, 1).value
            == ComputedScore(Some(skip), Some(kiff), 0, 0).value + 0.15 * (kiff - skip) as real
  {
  }

  /** A higher kiff never lowers the score, with either weighting. */
  lemma ComputedScoreMonotoneInKiff(skip: int, kiff: int, kiff': int, flou: int)
    requires kiff <= kiff'
    ensures ComputedScore(Some(skip), Some(kiff), 0, flou).value
            <= ComputedScore(Some(skip), Some(kiff'), 0, flou).value
  {
  }

  /** The worked example: skip 8 and kiff 6 give 7.0, 6.7 with flou, and
      nothing once the genre is special. */
  lemma ComputedScoreExample()
    ensures ComputedScore(Some(8), Some(6), 0, 0) == Some(7.0)
    ensures ComputedScore(Some(8), Some(6), 0, 1) == Some(6.7)
    ensures ComputedScore(Some(8), Some(6), 1, 1) == None
  {
  }
}
