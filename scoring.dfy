/** Deterministic scoring: overlap ratings, the landscape verdict and the
    confidence value, all computed from similarity scores and detected
    funding branches and never from the narrative text. */
module Scoring {
  import opened Config
  import opened Models

  /** Map a composite similarity score to its overlap rating. */
  function ComputeOverlapRating(score: real): (r: Rating)
    ensures r == High <==> score >= OverlapHighThreshold
    ensures r == Medium <==> OverlapMediumThreshold <= score < OverlapHighThreshold
    ensures r == Low <==> score < OverlapMediumThreshold
  {
    if score >= OverlapHighThreshold then High
    else if score >= OverlapMediumThreshold then Medium
    else Low
  }

  /** A larger score never gets a lower rating. */
  lemma RatingMonotone(a: real, b: real)
    requires a <= b
    ensures ComputeOverlapRating(a).Severity() <= ComputeOverlapRating(b).Severity()
  {
  }

  /** The rating of every result, in result order. */
  function RatingsOf(results: seq<SimilarityResult>): (ratings: seq<Rating>)
    ensures |ratings| == |results|
    ensures forall i :: 0 <= i < |results| ==> ratings[i] == ComputeOverlapRating(results[i].similarityScore)
  {
    seq(|results|, i requires 0 <= i < |results| => ComputeOverlapRating(results[i].similarityScore))
  }

  /** The positions of `r` in `ratings` (the list comprehension over `enumerate`). */
  function IndicesOf(ratings: seq<Rating>, r: Rating): (ix: seq<nat>)
    ensures forall k :: 0 <= k < |ix| ==> ix[k] < |ratings| && ratings[ix[k]] == r
    ensures forall i :: 0 <= i < |ratings| && ratings[i] == r ==> i in ix
    ensures |ix| > 0 <==> r in ratings
  {
    if |ratings| == 0 then []
    else
      var n := |ratings| - 1;
      var front := ratings[..n];
      var earlier := IndicesOf(front, r);
      assert forall i :: 0 <= i < n ==> front[i] == ratings[i];
      assert r in ratings <==> r in front || ratings[n] == r by {
        assert ratings == front + [ratings[n]];
      }
      earlier + (if ratings[n] == r then [n] else [])
  }

  /** The publication of `result` was detected as funded by `branch`. */
  predicate SharesBranch(result: SimilarityResult, branch: string) {
    branch in BranchValues(result.publication.detectedBranches)
  }

  /** Early-return search: does any listed result share the branch? */
  function AnySharesBranch(results: seq<SimilarityResult>, indices: seq<nat>, branch: string): (b: bool)
    requires forall k :: 0 <= k < |indices| ==> indices[k] < |results|
    ensures b <==> exists k :: 0 <= k < |indices| && SharesBranch(results[indices[k]], branch)
  {
    if |indices| == 0 then false
    else if SharesBranch(results[indices[0]], branch) then true
    else AnySharesBranch(results, indices[1..], branch)
  }

  /** The landscape verdict, first matching rule wins: no results, any high,
      a medium sharing the branch, any medium, otherwise open. */
  function ComputeVerdict(results: seq<SimilarityResult>, ratings: seq<Rating>, branch: string): (v: Verdict)
    requires |ratings| <= |results|
    ensures |results| == 0 ==> v == Unique
    ensures |results| > 0 && High in ratings ==> v == AtRisk
    ensures |results| > 0 && High !in ratings && Medium in ratings ==>
      (v == NeedsReview <==>
        exists i :: 0 <= i < |ratings| && ratings[i] == Medium && SharesBranch(results[i], branch))
    ensures |results| > 0 && High !in ratings && Medium in ratings ==> v == NeedsReview || v == NavyUnique
    ensures |results| > 0 && High !in ratings && Medium !in ratings ==> v == Unique
  {
    if |results| == 0 then Unique
    else
      var highIndices := IndicesOf(ratings, High);
      var mediumIndices := IndicesOf(ratings, Medium);
      if |highIndices| > 0 then AtRisk
      else if |mediumIndices| > 0 then
        if AnySharesBranch(results, mediumIndices, branch) then NeedsReview else NavyUnique
      else Unique
  }

  function MinReal(a: real, b: real): real { if a <= b then a else b }
  function MaxReal(a: real, b: real): real { if a >= b then a else b }

  /** Python's `max(r.similarity_score for r in results)`. */
  function MaxScore(results: seq<SimilarityResult>): (m: real)
    requires |results| > 0
    ensures forall i :: 0 <= i < |results| ==> results[i].similarityScore <= m
    ensures exists i :: 0 <= i < |results| && results[i].similarityScore == m
  {
    if |results| == 1 then results[0].similarityScore
    else
      var rest := MaxScore(results[1..]);
      if results[0].similarityScore >= rest then results[0].similarityScore else rest
  }

  /** How many ratings equal `r`. */
  function CountOf(ratings: seq<Rating>, r: Rating): nat {
    multiset(ratings)[r]
  }

  /** The verdict-specific base term of the confidence. */
  function BaseConfidence(results: seq<SimilarityResult>, ratings: seq<Rating>, verdict: Verdict): real
    requires |results| > 0
  {
    var nHigh := CountOf(ratings, High);
    var nMedium := CountOf(ratings, Medium);
    match verdict
    case Unique =>
      var gap := OverlapMediumThreshold - MaxScore(results);
      0.60 + MinReal(gap / OverlapMediumThreshold, 1.0) * 0.35
    case AtRisk =>
      0.60 + MinReal(nHigh as real / 5.0, 1.0) * 0.30
    case NavyUnique =>
      0.65 + MinReal((nHigh + nMedium) as real / 8.0, 1.0) * 0.20
    case NeedsReview =>
      0.45 + MinReal(nMedium as real / 6.0, 1.0) * 0.15
  }

  /** The sample-size bonus, +0 to +0.05, saturating at 15 results. */
  function SampleBonus(n: nat): real {
    MinReal(n as real / 15.0, 1.0) * 0.05
  }

  /** Python's `round(x, 2)` on exact reals: to the nearest hundredth, ties to
      the even hundredth. */
  function Round2(x: real): real {
    var y := x * 100.0;
    var f := y.Floor;
    var frac := y - f as real;
    var n := if frac > 0.5 then f + 1
             else if frac < 0.5 then f
             else if f % 2 == 0 then f else f + 1;
    n as real / 100.0
  }

  /** Rounding to hundredths never leaves an interval whose ends are
      hundredths. */
  lemma Round2Within(x: real, lo: int, hi: int)
    requires lo as real / 100.0 <= x <= hi as real / 100.0
    ensures lo as real / 100.0 <= Round2(x) <= hi as real / 100.0
  {
    var y := x * 100.0;
    var f := y.Floor;
    assert lo as real <= y <= hi as real;
    assert lo <= f <= hi;
    if f == hi {
      assert y == hi as real;
      assert y - f as real == 0.0;
    }
  }

  /** Rounding moves a value by at most half a hundredth. */
  lemma Round2Close(x: real)
    ensures x - 0.005 <= Round2(x) <= x + 0.005
  {
  }

  /** The clamp to [0.10, 0.99]. */
  function Clamp(x: real): real {
    MaxReal(0.10, MinReal(0.99, x))
  }

  /** The confidence: 0.90 with no results; otherwise base plus sample bonus,
      clamped to [0.10, 0.99] and rounded to two decimals. */
  function ComputeConfidence(results: seq<SimilarityResult>, ratings: seq<Rating>, verdict: Verdict): (c: real)
    ensures |results| == 0 ==> c == 0.90
    ensures 0.10 <= c <= 0.99
  {
    if |results| == 0 then 0.90
    else
      var clamped := Clamp(BaseConfidence(results, ratings, verdict) + SampleBonus(|results|));
      Round2Within(clamped, 10, 99);
      Round2(clamped)
  }

  /** The base term of each verdict lies in its band and saturates at the
      stated count. */
  lemma BaseConfidenceBands(results: seq<SimilarityResult>, ratings: seq<Rating>, verdict: Verdict)
    requires |results| > 0
    ensures var b := BaseConfidence(results, ratings, verdict);
      && (verdict == AtRisk ==> 0.60 <= b <= 0.90 && (CountOf(ratings, High) >= 5 ==> b == 0.90))
      && (verdict == NavyUnique ==>
            0.65 <= b <= 0.85 && (CountOf(ratings, High) + CountOf(ratings, Medium) >= 8 ==> b == 0.85))
      && (verdict == NeedsReview ==> 0.45 <= b <= 0.60 && (CountOf(ratings, Medium) >= 6 ==> b == 0.60))
      && (verdict == Unique ==>
            b <= 0.95
            && (MaxScore(results) <= OverlapMediumThreshold ==> 0.60 <= b)
            && (MaxScore(results) <= 0.0 ==> b == 0.95))
  {
  }

  /** The sample bonus lies in [0, 0.05] and reaches 0.05 from 15 results on. */
  lemma SampleBonusBand(n: nat)
    ensures 0.0 <= SampleBonus(n) <= 0.05
    ensures n >= 15 ==> SampleBonus(n) == 0.05
  {
  }

  /** With ratings computed from the scores, a verdict of UNIQUE on a
      non-empty list means every score lies below the medium threshold. */
  lemma UniqueMeansAllLow(results: seq<SimilarityResult>, branch: string)
    requires |results| > 0
    ensures ComputeVerdict(results, RatingsOf(results), branch) == Unique ==>
      MaxScore(results) < OverlapMediumThreshold
  {
    var ratings := RatingsOf(results);
    var i :| 0 <= i < |results| && results[i].similarityScore == MaxScore(results);
    assert ratings[i] in ratings;
  }

  /** For the verdict the pipeline actually computes, the confidence never
      drops below 0.45 (the NEEDS_REVIEW floor). */
  lemma ComputedConfidenceFloor(results: seq<SimilarityResult>, branch: string)
    ensures var ratings := RatingsOf(results);
      ComputeConfidence(results, ratings, ComputeVerdict(results, ratings, branch)) >= 0.45
  {
    var ratings := RatingsOf(results);
    var v := ComputeVerdict(results, ratings, branch);
    if |results| > 0 {
      UniqueMeansAllLow(results, branch);
      BaseConfidenceBands(results, ratings, v);
      SampleBonusBand(|results|);
      var clamped := Clamp(BaseConfidence(results, ratings, v) + SampleBonus(|results|));
      Round2Within(clamped, 45, 99);
    }
  }
}
