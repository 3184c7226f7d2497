/** Composite similarity ranking: combine holistic and concept scores,
    keep publications at or above the threshold, sort them by descending
    score (stably), keep the first `topK` and number them 1..n.
    The scores themselves come from embeddings, which are not modelled:
    `rawScores[i]` is the holistic cosine similarity of publication `i` and
    `conceptScores[i]` its IDF-weighted concept score. */
module Similarity {
  import opened Wrappers
  import opened Models
  import opened Scoring
  import opened Sorting

  /** At most this many keywords are used as concepts. */
  const MaxConcepts: nat := 20

  /** The proposal's keywords used as concepts: the first 20, verbatim. */
  function ExtractConcepts(proposal: UserProposal): (concepts: seq<string>)
    ensures |proposal.keywords| == 0 ==> concepts == []
    ensures |concepts| == if |proposal.keywords| < MaxConcepts then |proposal.keywords| else MaxConcepts
    ensures forall i :: 0 <= i < |concepts| ==> concepts[i] == proposal.keywords[i]
  {
    if |proposal.keywords| == 0 then []
    else if |proposal.keywords| <= MaxConcepts then proposal.keywords
    else proposal.keywords[..MaxConcepts]
  }

  /** Document frequency of concept `c`: how many publications have a
      similarity to it at or above the match threshold. */
  function DocumentFrequency(sims: seq<seq<real>>, c: nat, matchThreshold: real): (df: nat)
    requires forall p :: 0 <= p < |sims| ==> c < |sims[p]|
    ensures df <= |sims|
    ensures df == 0 <==> forall p :: 0 <= p < |sims| ==> sims[p][c] < matchThreshold
    ensures df == |sims| <==> forall p :: 0 <= p < |sims| ==> sims[p][c] >= matchThreshold
    ensures df == |Matching(sims, c, matchThreshold)|
  {
    if |sims| == 0 then 0
    else
      var n := |sims| - 1;
      var rest := DocumentFrequency(sims[..n], c, matchThreshold);
      MatchingSnoc(sims, c, matchThreshold);
      rest + (if sims[n][c] >= matchThreshold then 1 else 0)
  }

  /** The positions of the publications matching concept `c`. */
  ghost function Matching(sims: seq<seq<real>>, c: nat, matchThreshold: real): set<nat>
    requires forall p :: 0 <= p < |sims| ==> c < |sims[p]|
  {
    set p: nat | p < |sims| && sims[p][c] >= matchThreshold
  }

  /** The matching positions are those among all but the last publication,
      plus the last one's when it matches. */
  lemma MatchingSnoc(sims: seq<seq<real>>, c: nat, matchThreshold: real)
    requires |sims| > 0 && forall p :: 0 <= p < |sims| ==> c < |sims[p]|
    ensures |Matching(sims, c, matchThreshold)|
         == |Matching(sims[..|sims| - 1], c, matchThreshold)| + (if sims[|sims| - 1][c] >= matchThreshold then 1 else 0)
  {
    var n := |sims| - 1;
    var all := Matching(sims, c, matchThreshold);
    var front := Matching(sims[..n], c, matchThreshold);
    assert all - {n} == front;
    if sims[n][c] >= matchThreshold {
      assert all == front + {n};
    } else {
      assert all == front;
    }
  }

  /** A stricter match threshold never counts more publications. */
  lemma {:induction false} DocumentFrequencyMonotone(sims: seq<seq<real>>, c: nat, lo: real, hi: real)
    requires forall p :: 0 <= p < |sims| ==> c < |sims[p]|
    requires lo <= hi
    ensures DocumentFrequency(sims, c, hi) <= DocumentFrequency(sims, c, lo)
  {
    if |sims| > 0 {
      DocumentFrequencyMonotone(sims[..|sims| - 1], c, lo, hi);
    }
  }

  /** The weighted average of the clipped holistic and concept scores. */
  function Composite(raw: real, concept: real): (s: real)
    ensures s >= 0.0
  {
    0.75 * MaxReal(raw, 0.0) + 0.25 * MaxReal(concept, 0.0)
  }

  /** With scores in [0, 1] the composite stays in [0, 1] and lies between
      the two clipped inputs. */
  lemma CompositeBetween(raw: real, concept: real)
    requires 0.0 <= raw <= 1.0 && 0.0 <= concept <= 1.0
    ensures 0.0 <= Composite(raw, concept) <= 1.0
    ensures MinReal(raw, concept) <= Composite(raw, concept) <= MaxReal(raw, concept)
  {
  }

  /** Concept coverage refines but cannot dominate: with concept scores in
      [0, 1], a holistic lead of one third or more is never overturned. */
  lemma HolisticLeadPreserved(rawA: real, conceptA: real, rawB: real, conceptB: real)
    requires 0.0 <= rawB && rawA >= rawB + 1.0 / 3.0
    requires 0.0 <= conceptA <= 1.0 && 0.0 <= conceptB <= 1.0
    ensures Composite(rawA, conceptA) >= Composite(rawB, conceptB)
  {
  }

  /** The final scores: composite when concept scores exist, raw otherwise. */
  function CombineScores(rawScores: seq<real>, conceptScores: Option<seq<real>>): (final: seq<real>)
    requires conceptScores.Some? ==> |conceptScores.value| == |rawScores|
    ensures |final| == |rawScores|
    ensures conceptScores.None? ==> final == rawScores
    ensures conceptScores.Some? ==>
      forall i :: 0 <= i < |final| ==> final[i] == Composite(rawScores[i], conceptScores.value[i]) && final[i] >= 0.0
  {
    match conceptScores
    case None => rawScores
    case Some(concept) =>
      seq(|rawScores|, i requires 0 <= i < |rawScores| => Composite(rawScores[i], concept[i]))
  }

  /** Concept scores exist exactly when the proposal yields concepts. */
  function FinalScores(proposal: UserProposal, rawScores: seq<real>, conceptScores: seq<real>): (final: seq<real>)
    requires |conceptScores| == |rawScores|
    ensures |final| == |rawScores|
    ensures ExtractConcepts(proposal) == [] ==> final == rawScores
    ensures ExtractConcepts(proposal) != [] ==>
      forall i :: 0 <= i < |final| ==> final[i] == Composite(rawScores[i], conceptScores[i])
  {
    CombineScores(rawScores, if ExtractConcepts(proposal) == [] then None else Some(conceptScores))
  }

  /** Publication `a` comes before publication `b`: a higher score, or the
      same score and an earlier input position. */
  predicate Outranks(scores: seq<real>, a: nat, b: nat)
    requires a < |scores| && b < |scores|
  {
    scores[a] > scores[b] || (scores[a] == scores[b] && a < b)
  }

  /** The length of Python's slice `xs[:k]` for a list of length `n`. */
  function PrefixLength(n: nat, k: int): (m: nat)
    ensures m <= n
    ensures k >= 0 ==> m == if k < n then k else n
  {
    if k >= 0 then (if k < n then k else n)
    else if n + k > 0 then n + k else 0
  }

  function ScoreOf(r: SimilarityResult): real { r.similarityScore }
  function TaggedScore(p: (nat, SimilarityResult)): real { p.1.similarityScore }
  function TagOf(p: (nat, SimilarityResult)): int { p.0 }
  function OriginOf(p: (nat, SimilarityResult)): nat { p.0 }
  function ResultOf(p: (nat, SimilarityResult)): SimilarityResult { p.1 }

  /** What the filter loop leaves: the results at or above the threshold, in
      input order, each tagged with its input position. */
  ghost predicate Filtered(publications: seq<Publication>, finalScores: seq<real>, threshold: real,
                           results: seq<SimilarityResult>, origin: seq<nat>, upto: nat)
    requires |finalScores| == |publications| && upto <= |publications|
  {
    && |results| == |origin|
    && (forall k :: 0 <= k < |origin| ==>
          && origin[k] < upto
          && results[k] == SimilarityResult(publications[origin[k]], finalScores[origin[k]], 0)
          && finalScores[origin[k]] >= threshold)
    && (forall k1, k2 :: 0 <= k1 < k2 < |origin| ==> origin[k1] < origin[k2])
    && (forall i :: 0 <= i < upto && finalScores[i] >= threshold ==> i in origin)
  }

  /** What the stable sort leaves: the same results ordered by `Outranks`. */
  ghost predicate SortedByRank(publications: seq<Publication>, finalScores: seq<real>, threshold: real,
                               results: seq<SimilarityResult>, origin: seq<nat>)
    requires |finalScores| == |publications|
  {
    && |results| == |origin|
    && (forall k :: 0 <= k < |origin| ==>
          && origin[k] < |publications|
          && results[k] == SimilarityResult(publications[origin[k]], finalScores[origin[k]], 0)
          && finalScores[origin[k]] >= threshold)
    && (forall i, j :: 0 <= i < j < |origin| ==> Outranks(finalScores, origin[i], origin[j]))
    && (forall i :: 0 <= i < |publications| && finalScores[i] >= threshold ==> i in origin)
  }

  function Tagged(origin: seq<nat>, results: seq<SimilarityResult>): (t: seq<(nat, SimilarityResult)>)
    requires |origin| == |results|
    ensures |t| == |results|
    ensures forall k :: 0 <= k < |t| ==> t[k] == (origin[k], results[k])
  {
    seq(|results|, k requires 0 <= k < |results| => (origin[k], results[k]))
  }

  /** Each entry of the sorted tagged list comes from the input list. */
  lemma SortedFromInput(origin: seq<nat>, results: seq<SimilarityResult>, k: nat)
    requires |origin| == |results|
    requires k < |results|
    ensures exists m :: 0 <= m < |results| && SortDesc(Tagged(origin, results), TaggedScore)[k] == (origin[m], results[m])
  {
    var tagged := Tagged(origin, results);
    assert SortDesc(tagged, TaggedScore)[k] in multiset(tagged);
  }

  /** Each entry of the input list appears in the sorted tagged list. */
  lemma InputInSorted(origin: seq<nat>, results: seq<SimilarityResult>, m: nat)
    requires |origin| == |results|
    requires m < |results|
    ensures exists k :: 0 <= k < |results| && SortDesc(Tagged(origin, results), TaggedScore)[k] == (origin[m], results[m])
  {
    var tagged := Tagged(origin, results);
    assert tagged[m] in multiset(SortDesc(tagged, TaggedScore));
  }

  /** Projecting the sorted tagged list gives the sorted results. */
  lemma SortedProjection(origin: seq<nat>, results: seq<SimilarityResult>)
    requires |origin| == |results|
    ensures MapSeq(ResultOf, SortDesc(Tagged(origin, results), TaggedScore)) == SortDesc(results, ScoreOf)
  {
    var tagged := Tagged(origin, results);
    assert MapSeq(ResultOf, tagged) == results;
    SortDescMap(tagged, ResultOf, TaggedScore, ScoreOf);
  }

  /** Sorting the filtered results by score orders them by `Outranks`; the
      input positions travel with them through a tagged copy. */
  lemma SortKeepsRanking(publications: seq<Publication>, finalScores: seq<real>, threshold: real,
                         results: seq<SimilarityResult>, origin: seq<nat>)
    requires |finalScores| == |publications|
    requires Filtered(publications, finalScores, threshold, results, origin, |publications|)
    ensures SortedByRank(publications, finalScores, threshold, SortDesc(results, ScoreOf),
                         MapSeq(OriginOf, SortDesc(Tagged(origin, results), TaggedScore)))
  {
    var sortedTagged := SortDesc(Tagged(origin, results), TaggedScore);
    var sorted := SortDesc(results, ScoreOf);
    var o := MapSeq(OriginOf, sortedTagged);
    SortedProjection(origin, results);
    forall k | 0 <= k < |o|
      ensures o[k] < |publications|
      ensures sorted[k] == SimilarityResult(publications[o[k]], finalScores[o[k]], 0)
      ensures finalScores[o[k]] >= threshold
    {
      SortedEntry(publications, finalScores, threshold, results, origin, k);
      assert sorted[k] == sortedTagged[k].1;
    }
    SortDescStable(Tagged(origin, results), TaggedScore, TagOf);
    forall i, j | 0 <= i < j < |o| ensures Outranks(finalScores, o[i], o[j]) {
      SortedEntry(publications, finalScores, threshold, results, origin, i);
      SortedEntry(publications, finalScores, threshold, results, origin, j);
    }
    forall i | 0 <= i < |publications| && finalScores[i] >= threshold ensures i in o {
      var m :| 0 <= m < |origin| && origin[m] == i;
      InputInSorted(origin, results, m);
    }
  }

  /** One entry of the sorted tagged list: a filtered result, tagged with
      its input position. */
  lemma SortedEntry(publications: seq<Publication>, finalScores: seq<real>, threshold: real,
                    results: seq<SimilarityResult>, origin: seq<nat>, k: nat)
    requires |finalScores| == |publications|
    requires Filtered(publications, finalScores, threshold, results, origin, |publications|)
    requires k < |results|
    ensures var e := SortDesc(Tagged(origin, results), TaggedScore)[k];
      && e.0 < |publications|
      && e.1 == SimilarityResult(publications[e.0], finalScores[e.0], 0)
      && finalScores[e.0] >= threshold
  {
    SortedFromInput(origin, results, k);
  }

  /** Keep the results at or above the threshold, in input order. */
  method FilterAtThreshold(publications: seq<Publication>, finalScores: seq<real>, threshold: real)
    returns (results: seq<SimilarityResult>, ghost origin: seq<nat>)
    requires |finalScores| == |publications|
    ensures Filtered(publications, finalScores, threshold, results, origin, |publications|)
    ensures |results| <= |publications|
    ensures forall k :: 0 <= k < |results| ==>
      results[k].similarityScore >= threshold && results[k].rank == 0 && results[k].publication in publications
  {
    results, origin := [], [];
    var idx := 0;
    while idx < |publications|
      invariant 0 <= idx <= |publications|
      invariant Filtered(publications, finalScores, threshold, results, origin, idx)
    {
      var score := finalScores[idx];
      if score >= threshold {
        results := results + [SimilarityResult(publications[idx], score, 0)];
        origin := origin + [idx];
      }
      idx := idx + 1;
    }
    FilteredFacts(publications, finalScores, threshold, results, origin);
  }

  /** The filtered results are no more than the publications, each one
      unranked, scoring at or above the threshold and taken from the input. */
  lemma FilteredFacts(publications: seq<Publication>, finalScores: seq<real>, threshold: real,
                      results: seq<SimilarityResult>, origin: seq<nat>)
    requires |finalScores| == |publications|
    requires Filtered(publications, finalScores, threshold, results, origin, |publications|)
    ensures |results| <= |publications|
    ensures forall k :: 0 <= k < |results| ==>
      results[k].similarityScore >= threshold && results[k].rank == 0 && results[k].publication in publications
  {
    OriginsIncreasing(origin, |publications|);
  }

  /** Strictly increasing positions below `n` number at most `n`. */
  lemma {:induction false} OriginsIncreasing(origin: seq<nat>, n: nat)
    requires forall k :: 0 <= k < |origin| ==> origin[k] < n
    requires forall k1, k2 :: 0 <= k1 < k2 < |origin| ==> origin[k1] < origin[k2]
    ensures |origin| <= n
  {
    if |origin| > 0 {
      var last := origin[|origin| - 1];
      OriginsIncreasing(origin[..|origin| - 1], last);
    }
  }

  /** Number the results 1..n in list order. */
  method AssignRanks(unranked: seq<SimilarityResult>) returns (results: seq<SimilarityResult>)
    ensures |results| == |unranked|
    ensures forall k :: 0 <= k < |results| ==> results[k] == unranked[k].(rank := k + 1)
  {
    results := unranked;
    var i := 0;
    while i < |results|
      invariant 0 <= i <= |results| == |unranked|
      invariant forall k :: 0 <= k < i ==> results[k] == unranked[k].(rank := k + 1)
      invariant forall k :: i <= k < |results| ==> results[k] == unranked[k]
    {
      results := results[i := results[i].(rank := i + 1)];
      i := i + 1;
    }
  }

  /** Truncating a ranked list keeps its order, and whatever qualifying
      publication falls off is outranked by everything kept, which then
      fills the whole `topK`. */
  lemma TruncateKeepsBest(publications: seq<Publication>, finalScores: seq<real>, threshold: real,
                          sorted: seq<SimilarityResult>, origin: seq<nat>, topK: int)
    requires |finalScores| == |publications|
    requires SortedByRank(publications, finalScores, threshold, sorted, origin)
    ensures var keep := PrefixLength(|sorted|, topK);
      forall j :: 0 <= j < |publications| && finalScores[j] >= threshold && j !in origin[..keep] ==>
        && (topK >= 0 ==> keep == topK)
        && forall k :: 0 <= k < keep ==> Outranks(finalScores, origin[k], j)
  {
    var keep := PrefixLength(|sorted|, topK);
    assert forall q :: 0 <= q < keep ==> origin[q] in origin[..keep];
    forall j | 0 <= j < |publications| && finalScores[j] >= threshold && j !in origin[..keep]
      ensures (topK >= 0 ==> keep == topK)
      ensures forall k :: 0 <= k < keep ==> Outranks(finalScores, origin[k], j)
    {
      var p :| 0 <= p < |origin| && origin[p] == j;
      assert p >= keep;
    }
  }

  /** Rank the publications: filter at the threshold, stable-sort by
      descending score, keep `topK` (with Python's slice rules) and number
      the results 1..n. The ghost `origin` gives each result's input
      position. */
  method RankPublications(proposal: UserProposal, publications: seq<Publication>,
                          rawScores: seq<real>, conceptScores: seq<real>, topK: int, threshold: real)
    returns (results: seq<SimilarityResult>, ghost origin: seq<nat>)
    requires |rawScores| == |publications| && |conceptScores| == |publications|
    ensures |publications| == 0 ==> results == []
    ensures |origin| == |results|
    ensures topK >= 0 ==> |results| <= topK
    ensures forall k :: 0 <= k < |results| ==>
      && origin[k] < |publications|
      && results[k] == SimilarityResult(publications[origin[k]],
                                        FinalScores(proposal, rawScores, conceptScores)[origin[k]], k + 1)
      && results[k].similarityScore >= threshold
    ensures forall i, j :: 0 <= i < j < |results| ==>
      Outranks(FinalScores(proposal, rawScores, conceptScores), origin[i], origin[j])
    ensures forall i :: 0 <= i < |publications| && FinalScores(proposal, rawScores, conceptScores)[i] >= threshold
                        && i !in origin ==>
      && (topK >= 0 ==> |results| == topK)
      && forall k :: 0 <= k < |results| ==> Outranks(FinalScores(proposal, rawScores, conceptScores), origin[k], i)
  {
    results, origin := [], [];
    if |publications| == 0 {
      return;
    }
    var finalScores := FinalScores(proposal, rawScores, conceptScores);
    results, origin := FilterAtThreshold(publications, finalScores, threshold);

    // Sort by descending score; ties keep input order.
    SortKeepsRanking(publications, finalScores, threshold, results, origin);
    origin := MapSeq(OriginOf, SortDesc(Tagged(origin, results), TaggedScore));
    results := SortDesc(results, ScoreOf);

    // Keep the first topK, then number them.
    TruncateKeepsBest(publications, finalScores, threshold, results, origin, topK);
    var keep := PrefixLength(|results|, topK);
    results, origin := results[..keep], origin[..keep];
    results := AssignRanks(results);
  }
}
