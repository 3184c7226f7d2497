/** The analyzer's data model: proposals, publications, similarity results,
    per-publication comparisons and the final report. */
module Models {
  import opened Wrappers

  /** Funding sponsors a publication can acknowledge. */
  datatype MilitaryBranch = Navy | Army | AirForce | Darpa | Dod | MarineCorps | SpaceForce | UnknownBranch {

    /** The enum's string value. */
    function Value(): string {
      match this
      case Navy => "navy"
      case Army => "army"
      case AirForce => "air_force"
      case Darpa => "darpa"
      case Dod => "dod"
      case MarineCorps => "marine_corps"
      case SpaceForce => "space_force"
      case UnknownBranch => "unknown"
    }
  }

  /** `MilitaryBranch(v)`: the branch whose value is `v`; Python raises
      `ValueError` for any other string, here `None`. */
  function BranchFromValue(v: string): (b: Option<MilitaryBranch>)
    ensures b.Some? ==> b.value.Value() == v
  {
    if v == "navy" then Some(Navy)
    else if v == "army" then Some(Army)
    else if v == "air_force" then Some(AirForce)
    else if v == "darpa" then Some(Darpa)
    else if v == "dod" then Some(Dod)
    else if v == "marine_corps" then Some(MarineCorps)
    else if v == "space_force" then Some(SpaceForce)
    else if v == "unknown" then Some(UnknownBranch)
    else None
  }

  /** Every branch is recovered from its value, so values identify branches. */
  lemma BranchValueRoundTrip(b: MilitaryBranch)
    ensures BranchFromValue(b.Value()) == Some(b)
  {
  }

  function BranchValues(bs: seq<MilitaryBranch>): (vs: seq<string>)
    ensures |vs| == |bs|
    ensures forall i :: 0 <= i < |bs| ==> vs[i] == bs[i].Value()
  {
    seq(|bs|, i requires 0 <= i < |bs| => bs[i].Value())
  }

  /** The landscape verdict; exactly these four values exist. */
  datatype Verdict = Unique | NavyUnique | AtRisk | NeedsReview {
    function Value(): string {
      match this
      case Unique => "UNIQUE"
      case NavyUnique => "NAVY_UNIQUE"
      case AtRisk => "AT_RISK"
      case NeedsReview => "NEEDS_REVIEW"
    }
  }

  /** The categorical overlap rating ("high", "medium", "low"). */
  datatype Rating = High | Medium | Low {
    function Name(): string {
      match this
      case High => "high"
      case Medium => "medium"
      case Low => "low"
    }

    /** Position in the order low < medium < high. */
    function Severity(): nat {
      match this
      case Low => 0
      case Medium => 1
      case High => 2
    }
  }

  datatype UserProposal = UserProposal(
    title: string,
    abstractText: string,
    topicDescription: string,
    keywords: seq<string>,
    militaryBranch: MilitaryBranch,
    additionalContext: string)
  {
    /** The description used everywhere: the topic description, else the abstract. */
    function Description(): (d: string)
      ensures d == "" <==> topicDescription == "" && abstractText == ""
      ensures d == topicDescription || d == abstractText
    {
      if topicDescription != "" then topicDescription else abstractText
    }
  }

  datatype Publication = Publication(
    id: string,
    title: string,
    shortAbstract: string,
    fullAbstract: string,
    authors: seq<string>,
    pubYear: Option<int>,
    journalTitle: string,
    doi: string,
    acknowledgements: string,
    timesCited: int,
    score: real,
    detectedBranches: seq<MilitaryBranch>,
    url: string)
  {
    /** The full abstract when there is one, else the short abstract. */
    function BestAbstract(): (a: string)
      ensures a == fullAbstract || a == shortAbstract
      ensures a == "" <==> fullAbstract == "" && shortAbstract == ""
      ensures fullAbstract != "" ==> a == fullAbstract
    {
      if fullAbstract != "" then fullAbstract else shortAbstract
    }
  }

  /** A publication with its composite score; `rank` is 0 until ranking
      assigns 1..n. */
  datatype SimilarityResult = SimilarityResult(publication: Publication, similarityScore: real, rank: int)

  datatype PublicationComparison = PublicationComparison(
    publicationId: string,
    title: string,
    similarityAssessment: string,
    keyDifferences: seq<string>,
    keyOverlaps: seq<string>,
    overlapRating: Rating,
    url: string,
    pubYear: Option<int>,
    fundingBranches: seq<string>,
    similarityScore: real)

  datatype AnalysisReport = AnalysisReport(
    proposal: UserProposal,
    verdict: Verdict,
    confidence: real,
    executiveSummary: string,
    comparisons: seq<PublicationComparison>,
    pointsOfDifferentiation: seq<string>,
    recommendations: seq<string>,
    totalResultsFound: int,
    resultsAnalyzed: int,
    searchQueriesUsed: seq<string>)
  {
    /** The field constraint on confidence: 0.0 <= confidence <= 1.0. */
    predicate Valid() {
      0.0 <= confidence <= 1.0
    }
  }

  /** Query-generation strategies, in the order queries are generated. */
  datatype Strategy = TitleQuery | KeywordsQuery | TopicExcerptQuery | CombinedQuery {
    function Name(): string {
      match this
      case TitleQuery => "title"
      case KeywordsQuery => "keywords"
      case TopicExcerptQuery => "topic_excerpt"
      case CombinedQuery => "combined"
    }

    function Order(): nat {
      match this
      case TitleQuery => 0
      case KeywordsQuery => 1
      case TopicExcerptQuery => 2
      case CombinedQuery => 3
    }
  }

  datatype SearchQuery = SearchQuery(text: string, strategy: Strategy)
}
