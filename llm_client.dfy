/** The narrative-enrichment join: clean the model's raw reply, look up each
    publication the reply talks about among the ranked results, and attach
    the computed rating and score to it. Verdict and confidence are computed
    from the scores alone; the reply never supplies them. The LLM call and
    the JSON parser are not part of this model: the parser is a parameter. */
module LlmClient {
  import opened Wrappers
  import opened Strings
  import opened Models
  import opened Scoring
  import opened Sorting

  const Fence: string := "```"

  /** A line whose stripped form opens or closes a markdown code fence. */
  predicate FenceLine(line: string) {
    StartsWith(Strip(line), Fence)
  }

  /** The lines that are not fence lines, in order. */
  function DropFences(lines: seq<string>): (kept: seq<string>)
    ensures |kept| <= |lines|
    ensures forall k :: 0 <= k < |kept| ==> !FenceLine(kept[k]) && kept[k] in lines
    ensures forall k :: 0 <= k < |lines| && !FenceLine(lines[k]) ==> lines[k] in kept
  {
    if |lines| == 0 then []
    else (if FenceLine(lines[0]) then [] else [lines[0]]) + DropFences(lines[1..])
  }

  /** A single line is kept iff it is not a fence line. */
  lemma DropFencesOne(line: string)
    ensures DropFences([line]) == if FenceLine(line) then [] else [line]
  {
    assert [line][1..] == [];
  }

  /** Fence lines are dropped from each part separately: the kept lines of
      a concatenation are the kept lines of its parts, in order. With
      `DropFencesOne` this pins down `DropFences` on every list. */
  lemma {:induction false} DropFencesAppend(a: seq<string>, b: seq<string>)
    ensures DropFences(a + b) == DropFences(a) + DropFences(b)
  {
    if |a| == 0 {
      assert a + b == b;
    } else {
      assert (a + b)[1..] == a[1..] + b;
      DropFencesAppend(a[1..], b);
    }
  }

  /** The text handed to the JSON parser: the stripped reply, with every
      fence line removed when the reply starts with a fence. */
  function StripFences(text: string): (cleaned: string)
    ensures !StartsWith(Strip(text), Fence) ==> cleaned == Strip(text)
  {
    var stripped := Strip(text);
    if StartsWith(stripped, Fence) then Join("\n", DropFences(SplitOn(stripped, {'\n'})))
    else stripped
  }

  /** For a fenced reply, the lines of the cleaned text are exactly the
      reply's non-fence lines (when there are any), and no line of it is a
      fence line. */
  lemma FencedReplyLines(text: string)
    ensures StartsWith(Strip(text), Fence) ==>
      var kept := DropFences(SplitOn(Strip(text), {'\n'}));
      && (kept != [] ==> SplitOn(StripFences(text), {'\n'}) == kept)
      && forall k :: 0 <= k < |SplitOn(StripFences(text), {'\n'})| ==> !FenceLine(SplitOn(StripFences(text), {'\n'})[k])
  {
    if StartsWith(Strip(text), Fence) {
      var lines := SplitOn(Strip(text), {'\n'});
      var kept := DropFences(lines);
      if kept != [] {
        forall k | 0 <= k < |kept| ensures FreeOf(kept[k], {'\n'}) {
          var m :| 0 <= m < |lines| && lines[m] == kept[k];
        }
        assert "\n" == ['\n'];
        SplitJoin(kept, '\n', {'\n'});
      } else {
        assert StripFences(text) == "";
        assert Strip("") == "";
      }
    }
  }

  /** The id left once every "pub." is removed, stripped. */
  function BareId(id: string): string {
    Strip(RemoveAll(id, "pub."))
  }

  /** The normalised title key: stripped and lower-cased. */
  function TitleKey(title: string): string {
    Lower(Strip(title))
  }

  /** A dictionary filled by a loop over `xs`: each element is stored under
      each of its keys, and a later element overwrites an earlier one. */
  function IndexBy<T, V>(xs: seq<T>, keys: T -> set<string>, val: T -> V): map<string, V> {
    if |xs| == 0 then map[]
    else
      var n := |xs| - 1;
      Store(IndexBy(xs[..n], keys, val), keys, val, xs[n])
  }

  /** `m` with `x` stored under each of its keys. */
  function Store<T, V>(m: map<string, V>, keys: T -> set<string>, val: T -> V, x: T): map<string, V> {
    m + map k | k in keys(x) :: val(x)
  }

  /** A key is in the table iff some element has it. */
  lemma {:induction false} IndexByDomain<T, V>(xs: seq<T>, keys: T -> set<string>, val: T -> V, k: string)
    ensures k in IndexBy(xs, keys, val) <==> exists i :: 0 <= i < |xs| && k in keys(xs[i])
  {
    if |xs| > 0 {
      var n := |xs| - 1;
      IndexByDomain(xs[..n], keys, val, k);
      if exists i :: 0 <= i < n && k in keys(xs[..n][i]) {
        var i :| 0 <= i < n && k in keys(xs[..n][i]);
        assert xs[..n][i] == xs[i];
      }
      if exists i :: 0 <= i < |xs| && k in keys(xs[i]) {
        var i :| 0 <= i < |xs| && k in keys(xs[i]);
        if i < n {
          assert xs[..n][i] == xs[i];
        }
      }
    }
  }

  /** The value under a key comes from the last element having that key. */
  lemma {:induction false} IndexByLastWins<T, V>(xs: seq<T>, keys: T -> set<string>, val: T -> V, k: string)
    requires k in IndexBy(xs, keys, val)
    ensures exists i :: 0 <= i < |xs| && k in keys(xs[i]) && IndexBy(xs, keys, val)[k] == val(xs[i])
                        && forall j :: i < j < |xs| ==> k !in keys(xs[j])
  {
    var n := |xs| - 1;
    if k !in keys(xs[n]) {
      IndexByLastWins(xs[..n], keys, val, k);
      var i :| 0 <= i < n && k in keys(xs[..n][i]) && IndexBy(xs[..n], keys, val)[k] == val(xs[..n][i])
               && forall j :: i < j < n ==> k !in keys(xs[..n][j]);
      assert xs[..n][i] == xs[i];
      forall j | i < j < |xs| ensures k !in keys(xs[j]) {
        if j < n {
          assert xs[..n][j] == xs[j];
        }
      }
    }
  }

  /** Keys of the id table: the stripped id, and its bare form if non-empty. */
  function IdKeys(sr: SimilarityResult): set<string> {
    var fullId := Strip(sr.publication.id);
    {fullId} + (if BareId(fullId) != "" then {BareId(fullId)} else {})
  }

  /** Key of the title table: the normalised title, if non-empty. */
  function TitleKeys(sr: SimilarityResult): set<string> {
    if TitleKey(sr.publication.title) != "" then {TitleKey(sr.publication.title)} else {}
  }

  function ResultItself(sr: SimilarityResult): SimilarityResult { sr }
  function PairIdKeys(p: (SimilarityResult, Rating)): set<string> { {p.0.publication.id} }
  function PairRating(p: (SimilarityResult, Rating)): Rating { p.1 }

  /** Python's `zip(results, ratings)`: as long as the shorter list. */
  function Zip(results: seq<SimilarityResult>, ratings: seq<Rating>): (z: seq<(SimilarityResult, Rating)>)
    ensures |z| == if |results| <= |ratings| then |results| else |ratings|
    ensures forall i :: 0 <= i < |z| ==> z[i] == (results[i], ratings[i])
  {
    var n := if |results| <= |ratings| then |results| else |ratings|;
    seq(n, i requires 0 <= i < n => (results[i], ratings[i]))
  }

  function IdIndex(results: seq<SimilarityResult>): map<string, SimilarityResult> {
    IndexBy(results, IdKeys, ResultItself)
  }

  function TitleIndex(results: seq<SimilarityResult>): map<string, SimilarityResult> {
    IndexBy(results, TitleKeys, ResultItself)
  }

  /** The rating table, keyed by the raw (unstripped) publication id. */
  function OverlapMap(results: seq<SimilarityResult>, ratings: seq<Rating>): map<string, Rating> {
    IndexBy(Zip(results, ratings), PairIdKeys, PairRating)
  }

  /** One loop step of `IndexBy`. */
  lemma IndexByStep<T, V>(xs: seq<T>, i: nat, keys: T -> set<string>, val: T -> V)
    requires i < |xs|
    ensures IndexBy(xs[..i + 1], keys, val) == Store(IndexBy(xs[..i], keys, val), keys, val, xs[i])
  {
    assert xs[..i + 1][..i] == xs[..i];
  }

  /** The loop body's updates of the id table store the result under its keys. */
  lemma IdUpdate(m: map<string, SimilarityResult>, sr: SimilarityResult)
    ensures var fullId := Strip(sr.publication.id);
      var m1 := m[fullId := sr];
      (if BareId(fullId) != "" then m1[BareId(fullId) := sr] else m1) == Store(m, IdKeys, ResultItself, sr)
  {
  }

  /** The loop body's update of the title table stores the result under its key. */
  lemma TitleUpdate(m: map<string, SimilarityResult>, sr: SimilarityResult)
    ensures var norm := TitleKey(sr.publication.title);
      (if norm != "" then m[norm := sr] else m) == Store(m, TitleKeys, ResultItself, sr)
  {
  }

  /** Fill the id and title tables in one loop over the results. */
  method BuildLookups(results: seq<SimilarityResult>)
    returns (idLookup: map<string, SimilarityResult>, titleLookup: map<string, SimilarityResult>)
    ensures idLookup == IdIndex(results)
    ensures titleLookup == TitleIndex(results)
  {
    idLookup, titleLookup := map[], map[];
    var i := 0;
    while i < |results|
      invariant 0 <= i <= |results|
      invariant idLookup == IdIndex(results[..i])
      invariant titleLookup == TitleIndex(results[..i])
    {
      var sr := results[i];
      ghost var idBefore, titleBefore := idLookup, titleLookup;
      var fullId := Strip(sr.publication.id);
      idLookup := idLookup[fullId := sr];
      var bareId := BareId(fullId);
      if bareId != "" {
        idLookup := idLookup[bareId := sr];
      }
      var normTitle := TitleKey(sr.publication.title);
      if normTitle != "" {
        titleLookup := titleLookup[normTitle := sr];
      }
      assert idLookup == Store(idBefore, IdKeys, ResultItself, sr) by { IdUpdate(idBefore, sr); }
      assert titleLookup == Store(titleBefore, TitleKeys, ResultItself, sr) by { TitleUpdate(titleBefore, sr); }
      IndexByStep(results, i, IdKeys, ResultItself);
      IndexByStep(results, i, TitleKeys, ResultItself);
      i := i + 1;
    }
    assert results[..|results|] == results;
  }

  /** Fill the rating table in a loop over the results zipped with their
      ratings. */
  method BuildOverlapMap(results: seq<SimilarityResult>, ratings: seq<Rating>)
    returns (overlapMap: map<string, Rating>)
    ensures overlapMap == OverlapMap(results, ratings)
  {
    var pairs := Zip(results, ratings);
    overlapMap := map[];
    var j := 0;
    while j < |pairs|
      invariant 0 <= j <= |pairs|
      invariant overlapMap == IndexBy(pairs[..j], PairIdKeys, PairRating)
    {
      var (sr, rating) := pairs[j];
      ghost var before := overlapMap;
      overlapMap := overlapMap[sr.publication.id := rating];
      assert overlapMap == Store(before, PairIdKeys, PairRating, pairs[j]);
      IndexByStep(pairs, j, PairIdKeys, PairRating);
      j := j + 1;
    }
    assert pairs[..|pairs|] == pairs;
  }

  /** Two results share a non-empty bare id. */
  predicate SharesBareId(sr: SimilarityResult, bare: string) {
    bare != "" && BareId(sr.publication.id) != "" && bare == BareId(sr.publication.id)
  }

  /** A non-empty normalised title contains, or is contained in, the result's
      non-empty normalised title. */
  predicate TitlesOverlap(sr: SimilarityResult, norm: string) {
    var srTitle := TitleKey(sr.publication.title);
    norm != "" && srTitle != "" && (Contains(srTitle, norm) || Contains(norm, srTitle))
  }

  /** The position of the first element satisfying `p`. */
  function FirstWhere<T>(xs: seq<T>, p: T -> bool): (found: Option<nat>)
    ensures found.None? <==> forall i :: 0 <= i < |xs| ==> !p(xs[i])
    ensures found.Some? ==>
      found.value < |xs| && p(xs[found.value]) && forall i :: 0 <= i < found.value ==> !p(xs[i])
  {
    if |xs| == 0 then None
    else if p(xs[0]) then Some(0)
    else match FirstWhere(xs[1..], p)
      case None =>
        assert forall i :: 1 <= i < |xs| ==> xs[i] == xs[1..][i - 1];
        None
      case Some(i) => Some(i + 1)
  }

  /** None of the three id lookups of the matcher hits. */
  predicate IdsMiss(idLookup: map<string, SimilarityResult>, pubId: string) {
    var pid := Strip(pubId);
    && pid !in idLookup
    && BareId(pid) !in idLookup
    && "pub." + BareId(pid) !in idLookup
  }

  /** The six-strategy matcher, first hit wins: exact stripped id, bare id,
      "pub." + bare id, normalised title, a scan for a shared bare id, a scan
      for overlapping titles. */
  function FindSr(results: seq<SimilarityResult>, idLookup: map<string, SimilarityResult>,
                  titleLookup: map<string, SimilarityResult>, pubId: string, title: string)
    : (found: Option<SimilarityResult>)
    ensures found.Some? ==>
      found.value in idLookup.Values || found.value in titleLookup.Values || found.value in results
    ensures Strip(pubId) in idLookup ==> found == Some(idLookup[Strip(pubId)])
    ensures Strip(pubId) !in idLookup && BareId(Strip(pubId)) in idLookup ==>
      found == Some(idLookup[BareId(Strip(pubId))])
    ensures Strip(pubId) !in idLookup && BareId(Strip(pubId)) !in idLookup
            && "pub." + BareId(Strip(pubId)) in idLookup ==>
      found == Some(idLookup["pub." + BareId(Strip(pubId))])
    ensures IdsMiss(idLookup, pubId) && TitleKey(title) in titleLookup ==>
      found == Some(titleLookup[TitleKey(title)])
    ensures IdsMiss(idLookup, pubId) && TitleKey(title) !in titleLookup
            && (exists i :: 0 <= i < |results| && SharesBareId(results[i], BareId(Strip(pubId)))) ==>
      exists i :: 0 <= i < |results| && found == Some(results[i])
                  && SharesBareId(results[i], BareId(Strip(pubId)))
                  && forall j :: 0 <= j < i ==> !SharesBareId(results[j], BareId(Strip(pubId)))
    ensures IdsMiss(idLookup, pubId) && TitleKey(title) !in titleLookup
            && (forall i :: 0 <= i < |results| ==> !SharesBareId(results[i], BareId(Strip(pubId))))
            && (exists i :: 0 <= i < |results| && TitlesOverlap(results[i], TitleKey(title))) ==>
      exists i :: 0 <= i < |results| && found == Some(results[i])
                  && TitlesOverlap(results[i], TitleKey(title))
                  && forall j :: 0 <= j < i ==> !TitlesOverlap(results[j], TitleKey(title))
    ensures found.None? <==>
      && IdsMiss(idLookup, pubId)
      && TitleKey(title) !in titleLookup
      && (forall i :: 0 <= i < |results| ==> !SharesBareId(results[i], BareId(Strip(pubId))))
      && (forall i :: 0 <= i < |results| ==> !TitlesOverlap(results[i], TitleKey(title)))
  {
    var pid := Strip(pubId);
    var bare := BareId(pid);
    var norm := TitleKey(title);
    if pid in idLookup then Some(idLookup[pid])
    else if bare in idLookup then Some(idLookup[bare])
    else if "pub." + bare in idLookup then Some(idLookup["pub." + bare])
    else if norm in titleLookup then Some(titleLookup[norm])
    else match FirstWhere(results, sr => SharesBareId(sr, bare))
      case Some(i) => Some(results[i])
      case None =>
        match FirstWhere(results, sr => TitlesOverlap(sr, norm))
        case Some(i) => Some(results[i])
        case None => None
  }

  /** The matcher over the tables built from `results`. */
  function FindIn(results: seq<SimilarityResult>, pubId: string, title: string): Option<SimilarityResult> {
    FindSr(results, IdIndex(results), TitleIndex(results), pubId, title)
  }

  /** Every value of a table built from `results` is one of the results. */
  lemma IndexValuesAreResults(results: seq<SimilarityResult>, keys: SimilarityResult -> set<string>)
    ensures forall v :: v in IndexBy(results, keys, ResultItself).Values ==> v in results
  {
    var m := IndexBy(results, keys, ResultItself);
    forall v | v in m.Values ensures v in results {
      var k :| k in m && m[k] == v;
      IndexByLastWins(results, keys, ResultItself, k);
    }
  }

  /** A hit is always one of the ranked results, carried unchanged. */
  lemma FindInHitIsResult(results: seq<SimilarityResult>, pubId: string, title: string)
    ensures FindIn(results, pubId, title).Some? ==> FindIn(results, pubId, title).value in results
  {
    IndexValuesAreResults(results, IdKeys);
    IndexValuesAreResults(results, TitleKeys);
  }

  lemma RemovePrefix(b: string)
    ensures RemoveAll("pub." + b, "pub.") == RemoveAll(b, "pub.")
  {
    assert StartsWith("pub." + b, "pub.");
    assert ("pub." + b)[4..] == b;
  }

  /** A bare id "123" from the reply finds the result stored as "pub.123"
      (or a later result with the same bare id, which overwrote it). */
  lemma BareIdResolves(results: seq<SimilarityResult>, i: nat, b: string, title: string)
    requires i < |results|
    requires b != "" && Trimmed(b) && !Contains(b, "pub.")
    requires Strip(results[i].publication.id) == "pub." + b
    ensures exists j :: i <= j < |results| && FindIn(results, b, title) == Some(results[j])
    ensures (forall j :: i < j < |results| ==> b !in IdKeys(results[j])) ==> FindIn(results, b, title) == Some(results[i])
  {
    StripTrimmed(b);
    RemovePrefix(b);
    RemoveAllAbsent(b, "pub.");
    assert b in IdKeys(results[i]);
    var m := IdIndex(results);
    IndexByDomain(results, IdKeys, ResultItself, b);
    IndexByLastWins(results, IdKeys, ResultItself, b);
    var j :| 0 <= j < |results| && b in IdKeys(results[j]) && m[b] == results[j]
             && forall q :: j < q < |results| ==> b !in IdKeys(results[q]);
    assert i <= j;
    assert FindIn(results, b, title) == Some(results[j]);
  }

  /** A reply whose id matches no result but whose title equals a result's
      title up to case and surrounding whitespace finds that result, or a
      later one with the same normalised title (the later one overwrote it
      in the title table). */
  lemma TitleResolves(results: seq<SimilarityResult>, i: nat, pubId: string, title: string)
    requires i < |results|
    requires IdsMiss(IdIndex(results), pubId)
    requires TitleKey(title) != "" && TitleKey(results[i].publication.title) == TitleKey(title)
    ensures exists j :: i <= j < |results| && FindIn(results, pubId, title) == Some(results[j])
                        && TitleKey(results[j].publication.title) == TitleKey(title)
  {
    var norm := TitleKey(title);
    assert norm in TitleKeys(results[i]);
    IndexByDomain(results, TitleKeys, ResultItself, norm);
    IndexByLastWins(results, TitleKeys, ResultItself, norm);
    var j :| 0 <= j < |results| && norm in TitleKeys(results[j])
             && TitleIndex(results)[norm] == results[j]
             && forall q :: j < q < |results| ==> norm !in TitleKeys(results[q]);
    assert i <= j;
    assert FindIn(results, pubId, title) == Some(results[j]);
  }

  /** An id "pub.123" from the reply finds the result stored under the bare
      id "123", unless a result is stored under "pub.123" itself. */
  lemma PrefixedIdResolves(results: seq<SimilarityResult>, i: nat, b: string, title: string)
    requires i < |results|
    requires b != "" && Trimmed(b) && !Contains(b, "pub.")
    requires Strip(results[i].publication.id) == b
    ensures exists j :: 0 <= j < |results| && FindIn(results, "pub." + b, title) == Some(results[j])
                        && ("pub." + b in IdKeys(results[j]) || b in IdKeys(results[j]))
    ensures (forall j :: 0 <= j < |results| ==> "pub." + b !in IdKeys(results[j]))
            && (forall j :: i < j < |results| ==> b !in IdKeys(results[j])) ==>
      FindIn(results, "pub." + b, title) == Some(results[i])
  {
    var pid := "pub." + b;
    assert pid == "pub." + b;
    assert Trimmed(pid);
    StripTrimmed(pid);
    StripTrimmed(b);
    RemovePrefix(b);
    RemoveAllAbsent(b, "pub.");
    assert BareId(pid) == b;
    assert b in IdKeys(results[i]);
    var m := IdIndex(results);
    IndexByDomain(results, IdKeys, ResultItself, pid);
    IndexByDomain(results, IdKeys, ResultItself, b);
    if pid in m {
      IndexByLastWins(results, IdKeys, ResultItself, pid);
      var j :| 0 <= j < |results| && pid in IdKeys(results[j]) && m[pid] == results[j];
      assert FindIn(results, pid, title) == Some(results[j]);
    } else {
      IndexByLastWins(results, IdKeys, ResultItself, b);
      var j :| 0 <= j < |results| && b in IdKeys(results[j]) && m[b] == results[j]
               && forall q :: j < q < |results| ==> b !in IdKeys(results[q]);
      assert i <= j;
      assert FindIn(results, pid, title) == Some(results[j]);
    }
  }

  /** One entry of the parsed reply's "comparisons" list, with missing keys
      already replaced by their defaults. */
  datatype ComparisonEntry = ComparisonEntry(
    publicationId: string,
    title: string,
    similarityAssessment: string,
    keyDifferences: seq<string>,
    keyOverlaps: seq<string>)

  /** The parsed reply, with missing keys already replaced by their defaults. */
  datatype LlmResponse = LlmResponse(
    executiveSummary: string,
    comparisons: seq<ComparisonEntry>,
    pointsOfDifferentiation: seq<string>,
    recommendations: seq<string>)

  /** The comparison emitted for one entry: the reply's narrative fields, the
      matched result's rating, score, url, year and branches, or the defaults
      on a miss. */
  function BuildComparison(entry: ComparisonEntry, found: Option<SimilarityResult>, overlapMap: map<string, Rating>)
    : (c: PublicationComparison)
    ensures c.publicationId == entry.publicationId && c.title == entry.title
    ensures c.similarityAssessment == entry.similarityAssessment
    ensures c.keyDifferences == entry.keyDifferences && c.keyOverlaps == entry.keyOverlaps
    ensures found.None? ==>
      c.overlapRating == Low && c.similarityScore == 0.0 && c.url == "" && c.pubYear == None && c.fundingBranches == []
    ensures found.Some? ==>
      && c.similarityScore == found.value.similarityScore
      && c.url == found.value.publication.url
      && c.pubYear == found.value.publication.pubYear
      && c.fundingBranches == BranchValues(found.value.publication.detectedBranches)
  {
    match found
    case None =>
      PublicationComparison(entry.publicationId, entry.title, entry.similarityAssessment,
                            entry.keyDifferences, entry.keyOverlaps, Low, "", None, [], 0.0)
    case Some(sr) =>
      var pub := sr.publication;
      var rating := if pub.id in overlapMap then overlapMap[pub.id] else Low;
      PublicationComparison(entry.publicationId, entry.title, entry.similarityAssessment,
                            entry.keyDifferences, entry.keyOverlaps, rating, pub.url, pub.pubYear,
                            BranchValues(pub.detectedBranches), sr.similarityScore)
  }

  /** Publication ids are pairwise distinct. */
  predicate DistinctIds(results: seq<SimilarityResult>) {
    forall i, j :: 0 <= i < j < |results| ==> results[i].publication.id != results[j].publication.id
  }

  /** The rating attached to a hit is the computed rating of that very
      result (ids being distinct, as retrieval guarantees), never anything
      the reply says. */
  lemma ComparisonRatingIsComputed(results: seq<SimilarityResult>, entry: ComparisonEntry)
    requires DistinctIds(results)
    ensures var found := FindIn(results, entry.publicationId, entry.title);
      var c := BuildComparison(entry, found, OverlapMap(results, RatingsOf(results)));
      found.Some? ==> c.overlapRating == ComputeOverlapRating(found.value.similarityScore)
  {
    var found := FindIn(results, entry.publicationId, entry.title);
    FindInHitIsResult(results, entry.publicationId, entry.title);
    if found.Some? {
      var i :| 0 <= i < |results| && results[i] == found.value;
      OverlapMapOfResult(results, i);
    }
  }

  /** With distinct ids, the overlap table holds each result's own
      computed rating under its id. */
  lemma OverlapMapOfResult(results: seq<SimilarityResult>, i: nat)
    requires DistinctIds(results) && i < |results|
    ensures var m := OverlapMap(results, RatingsOf(results));
      results[i].publication.id in m && m[results[i].publication.id] == ComputeOverlapRating(results[i].similarityScore)
  {
    var id := results[i].publication.id;
    var pairs := Zip(results, RatingsOf(results));
    assert id in PairIdKeys(pairs[i]);
    IndexByDomain(pairs, PairIdKeys, PairRating, id);
    IndexByLastWins(pairs, PairIdKeys, PairRating, id);
    var j :| 0 <= j < |pairs| && id in PairIdKeys(pairs[j])
             && IndexBy(pairs, PairIdKeys, PairRating)[id] == PairRating(pairs[j]);
    assert results[j].publication.id == id;
  }

  /** The comparison for one entry, matched against the tables built from
      `results`. */
  function ComparisonFor(results: seq<SimilarityResult>, ratings: seq<Rating>, entry: ComparisonEntry)
    : PublicationComparison
  {
    BuildComparison(entry, FindIn(results, entry.publicationId, entry.title), OverlapMap(results, ratings))
  }

  /** The comparisons for a list of entries: one per entry, in entry order. */
  function ComparisonsFor(results: seq<SimilarityResult>, ratings: seq<Rating>, entries: seq<ComparisonEntry>)
    : (comparisons: seq<PublicationComparison>)
    ensures |comparisons| == |entries|
    ensures forall k :: 0 <= k < |entries| ==>
      comparisons[k] == ComparisonFor(results, ratings, entries[k])
      && comparisons[k].publicationId == entries[k].publicationId
  {
    MapSeq(entry => ComparisonFor(results, ratings, entry), entries)
  }

  /** Assemble one comparison per reply entry, in reply order. */
  method AssembleComparisons(results: seq<SimilarityResult>, ratings: seq<Rating>, entries: seq<ComparisonEntry>)
    returns (comparisons: seq<PublicationComparison>)
    ensures comparisons == ComparisonsFor(results, ratings, entries)
  {
    var idLookup, titleLookup := BuildLookups(results);
    var overlapMap := BuildOverlapMap(results, ratings);
    comparisons := [];
    var k := 0;
    while k < |entries|
      invariant 0 <= k <= |entries|
      invariant comparisons == ComparisonsFor(results, ratings, entries[..k])
    {
      var entry := entries[k];
      var found := FindSr(results, idLookup, titleLookup, entry.publicationId, entry.title);
      var comparison := BuildComparison(entry, found, overlapMap);
      assert comparison == ComparisonFor(results, ratings, entry);
      MapSeqSnoc(e => ComparisonFor(results, ratings, e), entries, k);
      comparisons := comparisons + [comparison];
      k := k + 1;
    }
    assert entries[..|entries|] == entries;
  }

  const ParseFailurePrefix: string := "LLM response could not be parsed. Raw response:\n\n"

  /** Compute rating, verdict and confidence from the scores, clean and parse
      the reply, and assemble the report. On a parse failure the report keeps
      the computed verdict and confidence and carries the raw reply. */
  method AnalyzeUniqueness(proposal: UserProposal, results: seq<SimilarityResult>, queries: seq<string>,
                           responseText: string, parse: string -> Option<LlmResponse>)
    returns (report: AnalysisReport)
    ensures report.proposal == proposal && report.searchQueriesUsed == queries
    ensures report.verdict == ComputeVerdict(results, RatingsOf(results), proposal.militaryBranch.Value())
    ensures report.confidence == ComputeConfidence(results, RatingsOf(results), report.verdict)
    ensures report.Valid()
    ensures report.totalResultsFound == |results| && report.resultsAnalyzed == |results|
    ensures parse(StripFences(responseText)).None? ==>
      && report.executiveSummary == ParseFailurePrefix + responseText
      && report.comparisons == [] && report.pointsOfDifferentiation == [] && report.recommendations == []
    ensures parse(StripFences(responseText)).Some? ==>
      var reply := parse(StripFences(responseText)).value;
      && report.executiveSummary == reply.executiveSummary
      && report.pointsOfDifferentiation == reply.pointsOfDifferentiation
      && report.recommendations == reply.recommendations
      && report.comparisons == ComparisonsFor(results, RatingsOf(results), reply.comparisons)
  {
    var ratings := RatingsOf(results);
    var verdict := ComputeVerdict(results, ratings, proposal.militaryBranch.Value());
    var confidence := ComputeConfidence(results, ratings, verdict);
    var parsed := parse(StripFences(responseText));
    match parsed {
      case None =>
        report := AnalysisReport(proposal, verdict, confidence, ParseFailurePrefix + responseText,
                                 [], [], [], |results|, |results|, queries);
      case Some(reply) =>
        var comparisons := AssembleComparisons(results, ratings, reply.comparisons);
        report := AnalysisReport(proposal, verdict, confidence, reply.executiveSummary, comparisons,
                                 reply.pointsOfDifferentiation, reply.recommendations,
                                 |results|, |results|, queries);
    }
  }
}
