/** The analysis pipeline: search-query generation, the report file name,
    and the orchestration of search, ranking and analysis with its
    empty-retrieval short cut. The search service, the encoder and the
    language model are parameters: each query's parsed results, the
    holistic and concept scores, and the model's reply text with its JSON
    parser. */
module Pipeline {
  import opened Wrappers
  import opened Strings
  import opened Config
  import opened Models
  import opened Scoring
  import opened Sorting
  import opened Similarity
  import opened LlmClient
  import opened Dimensions

  /** Python's `xs[:k]` for `k >= 0`. */
  function Take<T>(xs: seq<T>, k: nat): (r: seq<T>)
    ensures |r| == if |xs| <= k then |xs| else k
    ensures forall i :: 0 <= i < |r| ==> r[i] == xs[i]
  {
    if |xs| <= k then xs else xs[..k]
  }

  /** The whitespace-separated words of the description (topic
      description, else abstract). */
  function DescriptionWords(proposal: UserProposal): seq<string> {
    Words(proposal.Description())
  }

  /** The query each strategy contributes, if it contributes one. */
  function QueryFor(proposal: UserProposal, strategy: Strategy): (q: Option<SearchQuery>)
    ensures q.Some? ==> q.value.strategy == strategy
  {
    match strategy
    case TitleQuery => Some(SearchQuery(proposal.title, TitleQuery))
    case KeywordsQuery =>
      if |proposal.keywords| > 0 then Some(SearchQuery(Join(" ", proposal.keywords), KeywordsQuery)) else None
    case TopicExcerptQuery =>
      var words := DescriptionWords(proposal);
      if |words| > 10 then Some(SearchQuery(Join(" ", Take(words, 40)), TopicExcerptQuery)) else None
    case CombinedQuery =>
      if |proposal.keywords| > 0 then
        Some(SearchQuery(proposal.title + " " + Join(" ", Take(proposal.keywords, 5)), CombinedQuery))
      else None
  }

  /** The one-element list of a present option, the empty list of an absent one. */
  function OptList<T>(o: Option<T>): (r: seq<T>)
    ensures |r| <= 1
    ensures r == if o.Some? then [o.value] else []
  {
    match o
    case Some(x) => [x]
    case None => []
  }

  /** The queries of every strategy that contributes one, in strategy order. */
  function SearchQueries(proposal: UserProposal): seq<SearchQuery> {
    [SearchQuery(proposal.title, TitleQuery)]
      + OptList(QueryFor(proposal, KeywordsQuery))
      + OptList(QueryFor(proposal, TopicExcerptQuery))
      + OptList(QueryFor(proposal, CombinedQuery))
  }

  /** Build the query list by conditional appends. */
  method GenerateSearchQueries(proposal: UserProposal) returns (queries: seq<SearchQuery>)
    ensures queries == SearchQueries(proposal)
  {
    queries := [SearchQuery(proposal.title, TitleQuery)];
    if |proposal.keywords| > 0 {
      queries := queries + [SearchQuery(Join(" ", proposal.keywords), KeywordsQuery)];
    }
    ghost var afterKeywords := queries;
    var description := proposal.Description();
    var descWords := if description != "" then Words(description) else [];
    if description == "" {
      NoWordsInEmpty();
    }
    if |descWords| > 10 {
      var excerpt := Join(" ", Take(descWords, 40));
      queries := queries + [SearchQuery(excerpt, TopicExcerptQuery)];
    }
    assert queries == afterKeywords + OptList(QueryFor(proposal, TopicExcerptQuery));
    if |proposal.keywords| > 0 {
      var combined := proposal.title + " " + Join(" ", Take(proposal.keywords, 5));
      queries := queries + [SearchQuery(combined, CombinedQuery)];
    }
  }

  /** One to four queries, the title query first, and each query the one
      its strategy contributes. */
  lemma SearchQueriesFromStrategies(proposal: UserProposal)
    ensures var q := SearchQueries(proposal);
      && 1 <= |q| <= 4
      && q[0] == SearchQuery(proposal.title, TitleQuery)
      && forall k :: 0 <= k < |q| ==> QueryFor(proposal, q[k].strategy) == Some(q[k])
  {
    var q := SearchQueries(proposal);
    forall k | 0 <= k < |q| ensures QueryFor(proposal, q[k].strategy) == Some(q[k]) {
      StrategyAt(proposal, k);
    }
  }

  lemma StrategyAt(proposal: UserProposal, k: nat)
    requires k < |SearchQueries(proposal)|
    ensures var q := SearchQueries(proposal)[k];
      QueryFor(proposal, q.strategy) == Some(q)
  {
    var t := [SearchQuery(proposal.title, TitleQuery)];
    var l1 := OptList(QueryFor(proposal, KeywordsQuery));
    var l2 := OptList(QueryFor(proposal, TopicExcerptQuery));
    var l3 := OptList(QueryFor(proposal, CombinedQuery));
    var q := SearchQueries(proposal);
    if k == 0 {
    } else if k < 1 + |l1| {
      assert q[k] == l1[k - 1];
    } else if k < 1 + |l1| + |l2| {
      assert q[k] == l2[k - 1 - |l1|];
    } else {
      assert q[k] == l3[k - 1 - |l1| - |l2|];
    }
  }

  /** The queries come in strategy order, so each strategy at most once. */
  lemma SearchQueriesOrdered(proposal: UserProposal)
    ensures var q := SearchQueries(proposal);
      forall i, j :: 0 <= i < j < |q| ==> q[i].strategy.Order() < q[j].strategy.Order()
  {
    var q := SearchQueries(proposal);
    var l1 := OptList(QueryFor(proposal, KeywordsQuery));
    var l2 := OptList(QueryFor(proposal, TopicExcerptQuery));
    var l3 := OptList(QueryFor(proposal, CombinedQuery));
    assert forall k :: 0 <= k < |q| ==> q[k] in [SearchQuery(proposal.title, TitleQuery)] + l1 + l2 + l3;
    forall i, j | 0 <= i < j < |q| ensures q[i].strategy.Order() < q[j].strategy.Order() {
      StrategyAt(proposal, i);
      StrategyAt(proposal, j);
      StrategyPosition(proposal, i);
      StrategyPosition(proposal, j);
    }
  }

  /** A query's position is fixed by which earlier strategies contribute. */
  lemma StrategyPosition(proposal: UserProposal, k: nat)
    requires k < |SearchQueries(proposal)|
    ensures var s := SearchQueries(proposal)[k].strategy;
      k == |OptList(QueryFor(proposal, KeywordsQuery))| * (if s.Order() > 1 then 1 else 0)
         + |OptList(QueryFor(proposal, TopicExcerptQuery))| * (if s.Order() > 2 then 1 else 0)
         + (if s.Order() > 0 then 1 else 0)
  {
    var l1 := OptList(QueryFor(proposal, KeywordsQuery));
    var l2 := OptList(QueryFor(proposal, TopicExcerptQuery));
    var l3 := OptList(QueryFor(proposal, CombinedQuery));
    var q := SearchQueries(proposal);
    if k == 0 {
    } else if k < 1 + |l1| {
      assert q[k] == l1[k - 1];
    } else if k < 1 + |l1| + |l2| {
      assert q[k] == l2[k - 1 - |l1|];
    } else {
      assert q[k] == l3[k - 1 - |l1| - |l2|];
    }
  }

  /** A strategy has a query in the list exactly when it contributes one. */
  lemma SearchQueriesComplete(proposal: UserProposal, s: Strategy)
    ensures QueryFor(proposal, s).Some? <==>
      exists k :: 0 <= k < |SearchQueries(proposal)| && SearchQueries(proposal)[k].strategy == s
  {
    var q := SearchQueries(proposal);
    var l1 := OptList(QueryFor(proposal, KeywordsQuery));
    var l2 := OptList(QueryFor(proposal, TopicExcerptQuery));
    if QueryFor(proposal, s).Some? {
      var k := match s
        case TitleQuery => 0
        case KeywordsQuery => 1
        case TopicExcerptQuery => 1 + |l1|
        case CombinedQuery => 1 + |l1| + |l2|;
      assert q[k].strategy == s;
    } else {
      forall k | 0 <= k < |q| ensures q[k].strategy != s {
        StrategyAt(proposal, k);
      }
    }
  }

  /** The keyword query and the combined query come together: both exist
      exactly when there are keywords, and the combined text starts with
      the title. */
  lemma KeywordQueries(proposal: UserProposal)
    ensures QueryFor(proposal, KeywordsQuery).Some? <==> |proposal.keywords| > 0
    ensures QueryFor(proposal, CombinedQuery).Some? <==> |proposal.keywords| > 0
    ensures QueryFor(proposal, KeywordsQuery).Some? ==>
      QueryFor(proposal, KeywordsQuery).value.text == Join(" ", proposal.keywords)
    ensures QueryFor(proposal, CombinedQuery).Some? ==>
      && StartsWith(QueryFor(proposal, CombinedQuery).value.text, proposal.title + " ")
      && QueryFor(proposal, CombinedQuery).value.text == proposal.title + " " + Join(" ", Take(proposal.keywords, 5))
  {
  }

  /** The excerpt's words are the description's first 40 words, in order;
      it is the whole description's words when there are no more than 40. */
  lemma TopicExcerptWords(proposal: UserProposal)
    ensures QueryFor(proposal, TopicExcerptQuery).Some? <==> |DescriptionWords(proposal)| > 10
    ensures QueryFor(proposal, TopicExcerptQuery).Some? ==>
      Words(QueryFor(proposal, TopicExcerptQuery).value.text) == Take(DescriptionWords(proposal), 40)
    ensures QueryFor(proposal, TopicExcerptQuery).Some? ==>
      |Take(DescriptionWords(proposal), 40)| <= 40 &&
      (|DescriptionWords(proposal)| <= 40 ==>
         QueryFor(proposal, TopicExcerptQuery).value.text == Join(" ", DescriptionWords(proposal)))
  {
    WordsOfJoin(Take(DescriptionWords(proposal), 40));
  }

  /** The characters the file-name filter keeps. */
  predicate KeptChar(c: char) {
    IsAlnum(c) || c == ' ' || c == '-' || c == '_'
  }

  /** The characters a finished file-name title may hold. */
  predicate SafeChar(c: char) {
    IsAlnum(c) || c == '-' || c == '_'
  }

  /** Drop every character the filter does not keep. */
  function KeepFileChars(s: string): (r: string)
    ensures |r| <= |s|
    ensures forall i :: 0 <= i < |r| ==> KeptChar(r[i])
  {
    if |s| == 0 then ""
    else (if KeptChar(s[0]) then [s[0]] else "") + KeepFileChars(s[1..])
  }

  /** Python's `s.replace(" ", "_")`. */
  function SpacesToUnderscores(s: string): (r: string)
    ensures |r| == |s|
    ensures forall i :: 0 <= i < |s| ==> r[i] == if s[i] == ' ' then '_' else s[i]
  {
    seq(|s|, i requires 0 <= i < |s| => if s[i] == ' ' then '_' else s[i])
  }

  /** The title as it appears in the report file name: filtered, stripped,
      spaces turned into underscores, cut to 80 characters. */
  function SafeTitle(title: string): string {
    Take(SpacesToUnderscores(Strip(KeepFileChars(title))), 80)
  }

  function ReportFileName(title: string): string {
    "landscape_report_" + SafeTitle(title) + ".md"
  }

  /** The safe title holds only letters, digits, '-' and '_' (so no
      space), and has at most 80 characters. */
  lemma SafeTitleClean(title: string)
    ensures |SafeTitle(title)| <= 80
    ensures forall i :: 0 <= i < |SafeTitle(title)| ==> SafeChar(SafeTitle(title)[i])
  {
    var kept := KeepFileChars(title);
    StripChars(kept);
  }

  /** The file name is the fixed prefix, the safe title and ".md". */
  lemma ReportFileNameShape(title: string)
    ensures var f := ReportFileName(title);
      && StartsWith(f, "landscape_report_")
      && f[|f| - 3..] == ".md"
      && f[17..|f| - 3] == SafeTitle(title)
      && |f| <= 17 + 80 + 3
  {
    SafeTitleClean(title);
  }

  /** A title that is already safe is its own safe title, so sanitising
      twice changes nothing. */
  lemma SafeTitleIdempotent(title: string)
    ensures SafeTitle(SafeTitle(title)) == SafeTitle(title)
  {
    var s := SafeTitle(title);
    SafeTitleClean(title);
    KeepSafeChars(s);
    if |s| > 0 {
      assert !IsSpace(s[0]) && !IsSpace(s[|s| - 1]);
    }
    StripTrimmed(s);
    assert SpacesToUnderscores(s) == s;
  }

  lemma {:induction false} KeepSafeChars(s: string)
    requires forall i :: 0 <= i < |s| ==> SafeChar(s[i])
    ensures KeepFileChars(s) == s
  {
    if |s| > 0 {
      KeepSafeChars(s[1..]);
      assert [s[0]] + s[1..] == s;
    }
  }

  /** The executive summary of the report on an empty retrieval. */
  const NoPublicationsSummary: string :=
    "No publications were found in the DTIC database matching "
    + "the search queries derived from this topic. This suggests "
    + "an open landscape with wide opportunity, or that the search "
    + "terms need refinement. Manual verification is recommended."

  function QueryTexts(queries: seq<SearchQuery>): (texts: seq<string>)
    ensures |texts| == |queries|
    ensures forall i :: 0 <= i < |queries| ==> texts[i] == queries[i].text
  {
    seq(|queries|, i requires 0 <= i < |queries| => queries[i].text)
  }

  /** Generate the queries, search, and either short-cut on an empty
      retrieval or rank, analyse, and patch the total with the number of
      publications retrieved before filtering. `batches[i]` stands for the
      parsed results of the i-th query; `rawScore` for the holistic
      similarity of a publication to the proposal; `conceptScore(pubs, i)`
      for the concept score of `pubs[i]` within the retrieved set. */
  method RunPipeline(proposal: UserProposal, batches: seq<seq<Publication>>,
                     rawScore: Publication -> real, conceptScore: (seq<Publication>, nat) -> real,
                     responseText: string, parse: string -> Option<LlmResponse>)
    returns (report: AnalysisReport, publications: seq<Publication>, ghost searchOrigin: seq<nat>,
             results: seq<SimilarityResult>)
    ensures report.proposal == proposal
    ensures report.searchQueriesUsed == QueryTexts(SearchQueries(proposal))
    ensures FirstOccurrences(Flatten(batches), publications, searchOrigin)
    ensures publications == [] ==>
      report == AnalysisReport(proposal, Unique, 0.5, NoPublicationsSummary, [], [], [], 0, 0,
                               QueryTexts(SearchQueries(proposal)))
    ensures publications != [] ==>
      && report.totalResultsFound == |publications|
      && report.resultsAnalyzed == |results|
      && |results| <= SimilarityTopK
      && (forall k :: 0 <= k < |results| ==>
            && results[k].rank == k + 1
            && results[k].similarityScore >= SimilarityThreshold
            && results[k].publication in publications)
      && report.verdict == ComputeVerdict(results, RatingsOf(results), proposal.militaryBranch.Value())
      && report.confidence == ComputeConfidence(results, RatingsOf(results), report.verdict)
      && report.comparisons ==
           match parse(StripFences(responseText))
           case None => []
           case Some(reply) => ComparisonsFor(results, RatingsOf(results), reply.comparisons)
    ensures report.Valid()
  {
    var queries := GenerateSearchQueries(proposal);
    var queryTexts := QueryTexts(queries);
    publications, searchOrigin := SearchAll(batches);
    if |publications| == 0 {
      report := AnalysisReport(proposal, Unique, 0.5, NoPublicationsSummary, [], [], [], 0, 0, queryTexts);
      results := [];
      return;
    }
    var pubs := FetchFullAbstractsBatch(publications, DetailFetchTopN);
    var rawScores := MapSeq(rawScore, pubs);
    var conceptScores := seq(|pubs|, i requires 0 <= i < |pubs| => conceptScore(pubs, i));
    ghost var rankOrigin;
    results, rankOrigin := RankPublications(proposal, pubs, rawScores, conceptScores, SimilarityTopK, SimilarityThreshold);
    forall k | 0 <= k < |results| ensures results[k].publication in publications {
      assert results[k].publication == pubs[rankOrigin[k]];
    }
    report := AnalyzeUniqueness(proposal, results, queryTexts, responseText, parse);
    report := report.(totalResultsFound := |pubs|);
  }
}
