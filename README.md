# DTIC research landscape analyzer — verified model of the decision core

The analyzer takes a research proposal and works in five steps:

1. It derives up to four search queries from the proposal.
2. It retrieves publications from the DTIC Dimensions index and de-duplicates them by id.
3. It ranks them by a composite of holistic embedding similarity and IDF-weighted keyword (concept) similarity.
4. It rates each ranked publication's overlap as high, medium or low, and computes a landscape verdict (UNIQUE, NAVY_UNIQUE, AT_RISK, NEEDS_REVIEW) and a confidence from those ratings.
5. It asks a language model for narrative comparisons, and joins them back to the ranked publications so that ratings and scores always come from the computation and never from the model.

This project models that decision path in Dafny, one module per source file:

| module | file | models |
|---|---|---|
| `Models` | models.dfy | the data types (`MilitaryBranch`, `Verdict`, `UserProposal`, `Publication` with `best_abstract`, `SimilarityResult`, `PublicationComparison`, `AnalysisReport`, `SearchQuery`) |
| `Config` | config.dfy | thresholds, top-k, detail-fetch count, the DTIC urls, the branch pattern table |
| `Scoring` | scoring.dfy | overlap rating, first-match-wins verdict, clamped and rounded confidence |
| `Sorting` | sorting.dfy | Python's stable `list.sort(key=…, reverse=True)` |
| `Similarity` | similarity.dfy | concept extraction, document frequency, score combination, and the filter / stable sort / truncate / rank loop of `rank_publications` |
| `Encoder` | encoder.dfy | the texts handed to the embedding model |
| `LlmClient` | llm_client.dfy | fence stripping, the id / title / rating tables, the six-strategy matcher, comparison assembly, and the parse-failure fallback |
| `Numerals` | numerals.dfy | Python's `int()` on decimal text and `str()` on integers |
| `Dimensions` | dimensions.dfy | branch detection, author / year / id / url parsing, the de-duplicating merge of `search_all`, and the identity abstract fetch |
| `Pipeline` | pipeline.dfy | query generation, report file-name sanitising, and `run_pipeline`'s short cut and count patch |
| `Strings`, `Wrappers` | strings.dfy, wrappers.dfy | Python string operations over ASCII (`strip`, `split`, `join`, `lower`, `in`, `replace`), and `Option` |

Scores are exact `real`s. External services are parameters of the model:

- Each query's retrieved publications are an input.
- Each publication's holistic score and concept score are inputs.
- The model's raw reply is a string input, and the JSON parser is a function from text to `Option`.

Loops that update state are loops here. Each loop method is proved equal to a specification function, and the promised properties are proved about that function. The read-only early-exit scans `Scoring.AnySharesBranch` and `LlmClient.FirstWhere` are recursive functions.

## Model

| member | source | states |
|---|---|---|
| Models.BranchFromValue | src/models.py:10-18 | a branch is constructed from a value string only if that branch's value is the string |
| Models.BranchValueRoundTrip | src/models.py:10-18 | every branch is recovered from its value string |
| Models.BranchValues | src/analysis/scoring.py:50 | the value strings of a branch list, position by position |
| Models.UserProposal.Description | src/pipeline.py:38 | the topic description when non-empty, else the abstract; empty only when both are |
| Models.Publication.BestAbstract | src/models.py:56-58 | the full abstract when non-empty, else the short one; empty only when both are |
| Scoring.ComputeOverlapRating | src/analysis/scoring.py:16-26 | high iff score >= 0.60, medium iff 0.45 <= score < 0.60, low iff score < 0.45 |
| Scoring.RatingMonotone | src/analysis/scoring.py:22-26 | a larger score never gets a lower rating |
| Scoring.RatingsOf | src/analysis/llm_client.py:97-99 | one computed rating per result, from that result's score |
| Scoring.IndicesOf | src/analysis/scoring.py:45-46 | exactly the positions holding the given rating; non-empty iff the rating occurs |
| Scoring.AnySharesBranch | src/analysis/scoring.py:48-53 | true iff some listed result's detected branches include the proposal branch |
| Scoring.ComputeVerdict | src/analysis/scoring.py:29-63 | no results gives UNIQUE; any high gives AT_RISK; otherwise any medium gives NEEDS_REVIEW iff a medium result shares the branch, else NAVY_UNIQUE; only lows gives UNIQUE |
| Scoring.MaxScore | src/analysis/scoring.py:78 | an upper bound of every score that is attained by some result |
| Scoring.Round2Within | src/analysis/scoring.py:107 | rounding to hundredths stays inside an interval whose ends are hundredths |
| Scoring.Round2Close | src/analysis/scoring.py:107 | rounding to hundredths moves a value by at most 0.005 |
| Scoring.ComputeConfidence | src/analysis/scoring.py:66-108 | 0.90 for no results, and always within [0.10, 0.99] |
| Scoring.BaseConfidenceBands | src/analysis/scoring.py:82-101 | AT_RISK base in [0.60, 0.90] and 0.90 from 5 highs; NAVY_UNIQUE in [0.65, 0.85] and 0.85 from 8 overlaps; NEEDS_REVIEW in [0.45, 0.60] and 0.60 from 6 mediums; UNIQUE at most 0.95, at least 0.60 when the best score is at most 0.45, and 0.95 when it is at most 0 |
| Scoring.SampleBonusBand | src/analysis/scoring.py:104 | the sample bonus lies in [0, 0.05] and is 0.05 from 15 results on |
| Scoring.UniqueMeansAllLow | src/analysis/scoring.py:42-63 | a UNIQUE verdict on computed ratings of a non-empty list means the best score is below 0.45 |
| Scoring.ComputedConfidenceFloor | src/analysis/scoring.py:66-108 | for the verdict the ratings actually produce, confidence is at least 0.45 |
| Sorting.SortDesc | src/embeddings/similarity.py:146 | the sorted list is a permutation of the input |
| Sorting.SortDescStable | src/embeddings/similarity.py:146 | the sort orders by descending key and keeps equal keys in input order |
| Sorting.SortDescMap | src/embeddings/similarity.py:146 | sorting commutes with a key-preserving projection |
| Similarity.ExtractConcepts | src/embeddings/similarity.py:36-46 | the first 20 keywords, verbatim and in order; none without keywords |
| Similarity.DocumentFrequency | src/embeddings/similarity.py:77-79 | the size of the set of publications whose similarity to the concept is at or above the match threshold; between 0 and N; 0 iff none match, N iff all match |
| Similarity.DocumentFrequencyMonotone | src/embeddings/similarity.py:78-79 | a stricter match threshold never counts more publications |
| Similarity.Composite | src/embeddings/similarity.py:127-129 | 0.75 of the clipped holistic score plus 0.25 of the clipped concept score is never negative |
| Similarity.CompositeBetween | src/embeddings/similarity.py:127-129 | for scores in [0, 1] the composite stays in [0, 1], between the two scores |
| Similarity.HolisticLeadPreserved | src/embeddings/similarity.py:124-129 | a holistic lead of at least 1/3 cannot be overturned by concept scores in [0, 1] |
| Similarity.CombineScores | src/embeddings/similarity.py:124-131 | composite scores position by position when concept scores exist, the raw scores otherwise |
| Similarity.FinalScores | src/embeddings/similarity.py:121-131 | one final score per publication: the raw scores unchanged when the proposal yields no concepts, otherwise the composite of raw and concept score at each position |
| Similarity.PrefixLength | src/embeddings/similarity.py:149 | the length of `results[:top_k]`, which is min(top_k, n) for a non-negative top_k |
| Similarity.FilterAtThreshold | src/embeddings/similarity.py:133-143 | exactly the publications scoring at or above the threshold, in input order, each carried unchanged with its score |
| Similarity.SortKeepsRanking | src/embeddings/similarity.py:146 | sorting the filtered list orders it by score with ties in input order, and keeps every qualifying publication |
| Similarity.AssignRanks | src/embeddings/similarity.py:150-151 | the same results with ranks 1..n in list order |
| Similarity.TruncateKeepsBest | src/embeddings/similarity.py:149 | the kept prefix keeps the ranking order, and every dropped qualifying publication is outranked by all kept ones |
| Similarity.RankPublications | src/embeddings/similarity.py:91-154 | empty input gives no results; at most top_k results; ranks 1..n; every score at or above the threshold; non-increasing scores with ties in input order; every qualifying publication is returned or outranked by a full top_k |
| Encoder.FormatProposalText | src/embeddings/encoder.py:51-61 | the space-joined parts: title, description if non-empty, "Keywords: " plus the comma-joined keywords if any, additional context if non-empty; starts with the title |
| Encoder.ProposalTextContents | src/embeddings/encoder.py:53-61 | the text starts with the title and contains the description, every keyword and the context whenever each is present |
| Encoder.ProposalTextTitleOnly | src/embeddings/encoder.py:53-61 | a title-only proposal is embedded as its title |
| Encoder.ProposalTextFull | src/embeddings/encoder.py:53-61 | with every part present the text is the four parts in order, single-space separated |
| Encoder.FormatPublicationText | src/embeddings/encoder.py:64-70 | the title alone when the best abstract is empty, else title, space, best abstract |
| Encoder.PublicationTextPrefersFull | src/embeddings/encoder.py:64-70 | the full abstract is used when present; the short one only when the full one is empty |
| LlmClient.DropFences | src/analysis/llm_client.py:60 | every kept line is a non-fence line of the input and every non-fence line is kept |
| LlmClient.DropFencesOne | src/analysis/llm_client.py:60 | a single line is kept iff it is not a fence line |
| LlmClient.DropFencesAppend | src/analysis/llm_client.py:60 | the kept lines of a concatenation are the kept lines of its parts, in order; with the one-line case this fixes the result on every list |
| LlmClient.StripFences | src/analysis/llm_client.py:53-61 | text that does not start with a fence after stripping is passed on stripped and otherwise unchanged |
| LlmClient.FencedReplyLines | src/analysis/llm_client.py:55-61 | for a fenced reply, no line of the cleaned text is a fence line, and when some line is not a fence its lines are exactly the non-fence lines of the stripped reply, in order |
| LlmClient.IndexByDomain | src/analysis/llm_client.py:159-176 | a key is in a loop-filled table iff some element has that key |
| LlmClient.IndexByLastWins | src/analysis/llm_client.py:159-176 | a table's value under a key comes from the last element with that key |
| LlmClient.Zip | src/analysis/llm_client.py:175 | pairs position by position, as long as the shorter list |
| LlmClient.BuildLookups | src/analysis/llm_client.py:159-171 | the id table (stripped id, and the bare id when non-empty) and the title table (normalised non-empty title), later results overwriting earlier ones |
| LlmClient.BuildOverlapMap | src/analysis/llm_client.py:174-176 | the rating table keyed by raw id, later entries overwriting earlier ones |
| LlmClient.FirstWhere | src/analysis/llm_client.py:197-204 | the first position satisfying the test, or none iff no position does |
| LlmClient.FindSr | src/analysis/llm_client.py:178-205 | the six strategies in order, each deciding only when all earlier ones miss: exact stripped id, bare id, "pub." plus bare id, normalised title, the first result sharing the bare id, the first result whose title overlaps; a hit is one of the results; no hit iff all six miss |
| LlmClient.TitleResolves | src/analysis/llm_client.py:167-194 | a reply whose id matches nothing but whose title equals a result's title up to case and surrounding whitespace finds that result or a later one with the same normalised title |
| LlmClient.FindInHitIsResult | src/analysis/llm_client.py:178-205 | every hit is one of the ranked results, carried unchanged |
| LlmClient.BareIdResolves | src/analysis/llm_client.py:161-183 | a reply id "123" finds a result stored as "pub.123", and finds exactly it when no later result claims that key |
| LlmClient.PrefixedIdResolves | src/analysis/llm_client.py:161-187 | a reply id "pub.123" finds a result stored as "123", and finds exactly it when no result claims "pub.123" |
| LlmClient.BuildComparison | src/analysis/llm_client.py:228-243 | the reply's narrative fields; the hit's score, url, year and branches; "low", 0.0, "", no year and no branches on a miss |
| LlmClient.OverlapMapOfResult | src/analysis/llm_client.py:174-176 | with distinct ids, the rating table holds each result's computed rating under its id |
| LlmClient.ComparisonRatingIsComputed | src/analysis/llm_client.py:228-238 | a hit's rating is the computed rating of the matched result, never the reply's |
| LlmClient.ComparisonsFor | src/analysis/llm_client.py:208-244 | one comparison per reply entry, in entry order, keeping the entry's id |
| LlmClient.AssembleComparisons | src/analysis/llm_client.py:207-244 | the loop builds exactly the per-entry comparisons |
| LlmClient.AnalyzeUniqueness | src/analysis/llm_client.py:86-257 | verdict and confidence computed from the scores; confidence in [0, 1]; both counts equal the number of results; on a parse failure the summary is the fixed prefix plus the raw reply and the lists are empty; otherwise the reply's fields with the enriched comparisons |
| Numerals.ParseInt | src/scraper/dimensions.py:68 | a number is parsed iff the stripped text is an optional sign followed by one or more decimal digits |
| Numerals.ParseSigned | src/scraper/dimensions.py:68 | parses iff the text is an optional sign and one or more digits; the value is the digits' value, negated after '-' |
| Numerals.NotNumerals | src/scraper/dimensions.py:68 | "2019-01", "12.5", "1 2" and "--1" are not integers |
| Numerals.NotNumeral | src/scraper/dimensions.py:68 | trimmed text with a non-digit after its first character is not an integer |
| Numerals.ParseIntRoundTrip | src/scraper/dimensions.py:68 | `int(str(n)) == n` for every integer |
| Dimensions.BranchKeysAreValues | src/config.py:44-61 | every key of the pattern table is the value of a branch, in table order |
| Dimensions.DetectPrefix | src/scraper/dimensions.py:38-42 | a branch among the first n keys is reported iff one of its patterns occurs; at most once; in key order |
| Dimensions.MatchesAny | src/scraper/dimensions.py:39-42 | the early-exit scan finds a match iff some pattern occurs in the lower-cased text |
| Dimensions.DetectBranches | src/scraper/dimensions.py:32-43 | empty text gives []; a branch is reported iff one of its patterns is a case-insensitive substring; each once, in key order |
| Dimensions.NoPatternNoBranch | src/scraper/dimensions.py:36-43 | text matching no pattern gives [] |
| Dimensions.EntryNames | src/scraper/dimensions.py:57-61 | the name of each list entry: a dict's full name, or a scalar's stripped text |
| Dimensions.AuthorsOf | src/scraper/dimensions.py:48-63 | the author names, none of them empty |
| Dimensions.ParseAuthors | src/scraper/dimensions.py:48-63 | the loops compute exactly the author names of the field |
| Dimensions.ParseAuthorString | src/scraper/dimensions.py:50-55 | split on ';' and ',', strip each piece, keep the non-empty ones, in order |
| Dimensions.ParseAuthorItems | src/scraper/dimensions.py:56-63 | each entry's name, keeping the non-empty ones, in order |
| Dimensions.AuthorStringNamesClean | src/scraper/dimensions.py:50-55 | names split from a string are trimmed and hold no separator |
| Dimensions.AuthorStringRoundTrip | src/scraper/dimensions.py:50-55 | clean names joined with ';' or ',' split back into the same names |
| Dimensions.AuthorStringSpacedRoundTrip | src/scraper/dimensions.py:50-55 | clean names joined with "; " or ", " split back into the same names |
| Dimensions.ParsePubYear | src/scraper/dimensions.py:65-70 | a missing or non-scalar year gives None |
| Dimensions.PubYearNumbers | src/scraper/dimensions.py:65-70 | a non-zero integer year is kept, 0 gives None, and the decimal text of any integer gives that integer |
| Dimensions.PubYearText | src/scraper/dimensions.py:65-70 | a text year is kept iff, stripped, it is an optional sign and decimal digits; "2019-01", "12.5", "1 2" and "--1" give None |
| Dimensions.PubYearUnparsable | src/scraper/dimensions.py:65-70 | text without a digit gives None |
| Dimensions.DetailUrl | src/scraper/dimensions.py:90 | "" iff the id is empty; otherwise the detail url, "/", and the id |
| Dimensions.ParsePublication | src/scraper/dimensions.py:46-92 | every field of the publication from the document, with its default, the author and year parsers, branches detected in the stripped acknowledgements-plus-funding text, and the url |
| Dimensions.FirstOccurrencesAdd | src/scraper/dimensions.py:194-196 | appending a publication with a new non-empty id keeps the first-occurrence invariant |
| Dimensions.FirstOccurrencesSkip | src/scraper/dimensions.py:194 | skipping a publication with an empty or already-seen id keeps the invariant |
| Dimensions.MergeBatch | src/scraper/dimensions.py:193-196 | one query's publications merged: the seen set stays the kept ids and the invariant extends to the batch |
| Dimensions.SearchAll | src/scraper/dimensions.py:186-203 | the output is the first publication of each non-empty id across all queries, in order of first appearance: ids non-empty and pairwise distinct, every output publication retrieved, every retrieved non-empty id kept |
| Dimensions.FirstOccurrencesFacts | src/scraper/dimensions.py:188-196 | the output ids are non-empty and pairwise distinct, every output publication was retrieved, and every retrieved non-empty id is kept |
| Dimensions.FetchFullAbstractsBatch | src/scraper/dimensions.py:172-184 | the batch comes back unchanged |
| Pipeline.QueryFor | src/pipeline.py:25-47 | a strategy's query, when present, carries that strategy (its text is stated by `Pipeline.KeywordQueries` and `Pipeline.TopicExcerptWords`) |
| Pipeline.GenerateSearchQueries | src/pipeline.py:21-49 | the conditional appends produce the queries of the contributing strategies, in strategy order |
| Pipeline.SearchQueriesFromStrategies | src/pipeline.py:21-49 | one to four queries; the first is the title query with the proposal title; each query is the one its strategy contributes |
| Pipeline.SearchQueriesOrdered | src/pipeline.py:21-49 | strategies come in the order title, keywords, topic excerpt, combined, each at most once |
| Pipeline.SearchQueriesComplete | src/pipeline.py:21-49 | a strategy appears iff it contributes a query |
| Pipeline.KeywordQueries | src/pipeline.py:29-47 | the keyword and combined queries exist iff there are keywords; the keyword text is the keywords joined by spaces; the combined text is the title, a space and the first five keywords joined by spaces |
| Pipeline.TopicExcerptWords | src/pipeline.py:38-42 | the topic query exists iff the description has more than 10 words; the words of its text are the description's first 40 words, in order; it is the whole description's words when there are at most 40 |
| Strings.WordsOfJoin | src/pipeline.py:40-41 | non-empty words without whitespace, joined by single spaces, split back into the same words |
| Pipeline.KeepFileChars | src/pipeline.py:175 | only letters, digits, space, '-' and '_' survive |
| Pipeline.SpacesToUnderscores | src/pipeline.py:176 | each space becomes '_', every other character is unchanged |
| Pipeline.SafeTitleClean | src/pipeline.py:175-176 | the sanitised title holds only letters, digits, '-' and '_' (no space) and has at most 80 characters |
| Pipeline.SafeTitleIdempotent | src/pipeline.py:175-176 | sanitising a sanitised title changes nothing |
| Pipeline.ReportFileNameShape | src/pipeline.py:175-177 | the file name is "landscape_report_", the sanitised title, ".md" |
| Pipeline.QueryTexts | src/pipeline.py:108 | the text of each query, in order |
| Pipeline.RunPipeline | src/pipeline.py:97-168 | queries used are the generated texts; publications are the de-duplicated retrieval; an empty retrieval gives UNIQUE, 0.5, the fixed summary, no lists and zero counts; otherwise at most 20 results with ranks 1..n and scores >= 0.3 drawn from the retrieval, verdict and confidence computed from them, comparisons per the parse outcome, and the total patched to the number retrieved |

## Left out

- HTTP scraping is not modelled: the client, `_fetch_page`, pagination and throttling (src/scraper/dimensions.py:98-170). `Dimensions.SearchAll` takes each query's parsed publications as input.
- The language-model call, the API-key check and `json.loads` are not modelled. The raw reply text is an input, and the parser is a function parameter returning `Option`. A missing JSON key is taken as already replaced by its default in `LlmResponse` and `ComparisonEntry`.
- Prompt and report text are not modelled: `_results_to_prompt_dicts`, `_build_precomputed_metrics_text`, src/analysis/prompts.py, src/analysis/report.py, the markdown report and the step summary.
- Embedding model loading, the encoding itself, dot products, the `log` IDF weights and the normalised concept score are not modelled, because they are floating-point numerics over a foreign library. Holistic and concept scores are inputs; document frequency is modelled.
- Similarity.RankPublications: the early return when the encoder yields no embeddings (src/embeddings/similarity.py:115-116) is not modelled. Concept scores are taken as absent exactly when the proposal yields no concepts; the encoder-failure cases at src/embeddings/similarity.py:66-72 are not modelled. The `RankingResult` container's embedding fields are not modelled.
- Scoring.ComputeConfidence: Python floats are exact reals here, and `round(x, 2)` is modelled as exact round-half-to-even at hundredths, so binary-float representation effects are not captured.
- The PCA landscape map (src/pipeline.py:52-94) is not modelled, because it is floating-point linear algebra. Pipeline.RunPipeline returns only the report, not the markdown, summary or map.
- Writing the report file and creating its directory (src/pipeline.py:173-181) are not modelled; only the file name is.
- Logging is not modelled.
- Strings are ASCII: `isspace`, `isalnum` and `lower` are modelled on ASCII characters only.
- LlmClient.AnalyzeUniqueness: valid JSON of the wrong shape makes the source raise instead of falling back: a top-level list fails at `parsed.get` (src/analysis/llm_client.py:209), a numeric `publication_id` fails at `.strip()` (src/analysis/llm_client.py:180), and a null field fails the `PublicationComparison` validation (src/analysis/llm_client.py:229-243). The parser parameter returns `Option` of already well-shaped records, so these crashes cannot be expressed; such replies are modelled only as a parse success or a parse failure.
- Numerals.ParseInt: does not accept the digit-group underscores or non-ASCII digits that Python's `int()` accepts.
- Dimensions.ParsePublication: a `title` that is present but null, which makes the source's validation raise, is not modelled.
- The access-code middleware (src/auth.py), the CLI and HTTP entry points (src/cli.py, src/api.py) and the abstract `PublicationSource` (src/scraper/base.py) are not modelled. They are plumbing or interface only.
- `CONCEPT_MATCH_THRESHOLD` is not defined among the configuration constants shown, so it is a parameter of `Similarity.DocumentFrequency`.
- Where the tests disagree with the code, the model follows the code. The third strategy is "topic_excerpt" (src/pipeline.py:42), and `rank_publications` returns a container rather than a list (src/embeddings/similarity.py:110).
