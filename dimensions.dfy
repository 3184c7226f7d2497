/** The DTIC Dimensions scraper's pure logic: funding-branch detection,
    parsing one `results.json` document into a publication, and merging the
    per-query result lists without duplicate ids. The HTTP requests and
    their pagination and throttling are not part of this model: each
    query's parsed publications are a parameter. */
module Dimensions {
  import opened Wrappers
  import opened Strings
  import opened Config
  import opened Models
  import opened Numerals

  /** The branch named by each key of the pattern table, in key order. */
  const BranchOrder: seq<MilitaryBranch> := [Navy, Army, AirForce, Darpa, Dod, MarineCorps, SpaceForce]

  /** Position of a branch's key in the pattern table (the unknown branch
      has no key and comes last). */
  function KeyIndex(b: MilitaryBranch): nat {
    match b
    case Navy => 0
    case Army => 1
    case AirForce => 2
    case Darpa => 3
    case Dod => 4
    case MarineCorps => 5
    case SpaceForce => 6
    case UnknownBranch => 7
  }

  /** Every key of the pattern table is the value of the branch at the same
      position, so `MilitaryBranch(key)` never fails. */
  lemma BranchKeysAreValues()
    ensures |BranchOrder| == |BranchPatterns|
    ensures forall i :: 0 <= i < |BranchPatterns| ==>
      BranchFromValue(BranchPatterns[i].0) == Some(BranchOrder[i]) && KeyIndex(BranchOrder[i]) == i
  {
  }

  /** Some pattern, lower-cased, occurs in the lower-cased text. */
  predicate Matches(patterns: seq<string>, textLower: string) {
    exists j :: 0 <= j < |patterns| && Contains(textLower, Lower(patterns[j]))
  }

  /** The branches among the first `n` keys that have a matching pattern. */
  function DetectPrefix(textLower: string, n: nat): (bs: seq<MilitaryBranch>)
    requires n <= |BranchPatterns|
    ensures forall b :: b in bs <==>
      exists i :: 0 <= i < n && BranchOrder[i] == b && Matches(BranchPatterns[i].1, textLower)
    ensures forall k :: 0 <= k < |bs| ==> KeyIndex(bs[k]) < n
    ensures forall i, j :: 0 <= i < j < |bs| ==> KeyIndex(bs[i]) < KeyIndex(bs[j])
  {
    if n == 0 then []
    else
      BranchKeysAreValues();
      DetectPrefix(textLower, n - 1)
      + (if Matches(BranchPatterns[n - 1].1, textLower) then [BranchOrder[n - 1]] else [])
  }

  /** The branches detected in `text`. */
  function Detected(text: string): seq<MilitaryBranch> {
    if text == "" then [] else DetectPrefix(Lower(text), |BranchPatterns|)
  }

  /** For each key in order, scan its patterns and stop at the first one
      that occurs in the lower-cased text. */
  method DetectBranches(text: string) returns (branches: seq<MilitaryBranch>)
    ensures branches == Detected(text)
    ensures text == "" ==> branches == []
    ensures forall b :: b in branches <==>
      text != "" && exists i :: 0 <= i < |BranchPatterns| && BranchOrder[i] == b && Matches(BranchPatterns[i].1, Lower(text))
    ensures forall i, j :: 0 <= i < j < |branches| ==> KeyIndex(branches[i]) < KeyIndex(branches[j])
  {
    branches := [];
    if text == "" {
      return;
    }
    var textLower := Lower(text);
    BranchKeysAreValues();
    var i := 0;
    while i < |BranchPatterns|
      invariant 0 <= i <= |BranchPatterns|
      invariant branches == DetectPrefix(textLower, i)
    {
      var (key, patterns) := BranchPatterns[i];
      var found := MatchesAny(patterns, textLower);
      if found {
        var branch := BranchFromValue(key);
        branches := branches + [branch.value];
      }
      i := i + 1;
    }
  }

  /** Scan the patterns in order and stop at the first one that occurs. */
  method MatchesAny(patterns: seq<string>, textLower: string) returns (found: bool)
    ensures found == Matches(patterns, textLower)
  {
    found := false;
    var j := 0;
    while j < |patterns|
      invariant 0 <= j <= |patterns|
      invariant forall q :: 0 <= q < j ==> !Contains(textLower, Lower(patterns[q]))
    {
      if Contains(textLower, Lower(patterns[j])) {
        found := true;
        return;
      }
      j := j + 1;
    }
  }

  /** Text in which no pattern occurs yields no branch. */
  lemma NoPatternNoBranch(text: string)
    ensures (forall i :: 0 <= i < |BranchPatterns| ==> !Matches(BranchPatterns[i].1, Lower(text))) ==>
      Detected(text) == []
  {
    if text != "" && Detected(text) != [] {
      assert Detected(text)[0] in Detected(text);
    }
  }

  /** One entry of a list-valued `author_list`. */
  datatype AuthorEntry =
    | AuthorDict(fullName: string)   // a dict: its "full_name" ("" when absent)
    | AuthorScalar(text: string)     // anything else: its `str()` form

  /** The `author_list` field: a string, a list, or anything else (missing
      is the empty list). */
  datatype AuthorField = AuthorString(s: string) | AuthorItems(items: seq<AuthorEntry>) | AuthorOther

  const AuthorSeparators: set<char> := {';', ','}

  function EntryName(e: AuthorEntry): string {
    match e
    case AuthorDict(n) => n
    case AuthorScalar(t) => Strip(t)
  }

  function EntryNames(items: seq<AuthorEntry>): (names: seq<string>)
    ensures |names| == |items|
    ensures forall k :: 0 <= k < |items| ==> names[k] == EntryName(items[k])
  {
    seq(|items|, k requires 0 <= k < |items| => EntryName(items[k]))
  }

  /** The author names: a string is split on ';' and ',', each piece
      stripped and empty pieces dropped; a list gives each entry's name,
      empty names dropped; anything else gives none. */
  function AuthorsOf(field: AuthorField): (names: seq<string>)
    ensures forall k :: 0 <= k < |names| ==> names[k] != ""
  {
    match field
    case AuthorString(s) => NonEmpty(StripAll(SplitOn(s, AuthorSeparators)))
    case AuthorItems(items) => NonEmpty(EntryNames(items))
    case AuthorOther => []
  }

  method ParseAuthors(field: AuthorField) returns (authors: seq<string>)
    ensures authors == AuthorsOf(field)
  {
    match field {
      case AuthorString(s) =>
        authors := ParseAuthorString(s);
      case AuthorItems(items) =>
        authors := ParseAuthorItems(items);
      case AuthorOther =>
        authors := [];
    }
  }

  /** Split on the separators, strip each piece, keep the non-empty ones. */
  method ParseAuthorString(s: string) returns (authors: seq<string>)
    ensures authors == NonEmpty(StripAll(SplitOn(s, AuthorSeparators)))
  {
    var pieces := SplitOn(s, AuthorSeparators);
    authors := [];
    var i := 0;
    while i < |pieces|
      invariant 0 <= i <= |pieces|
      invariant authors == NonEmpty(StripAll(pieces[..i]))
    {
      var name := Strip(pieces[i]);
      AuthorStringStep(pieces, i);
      if name != "" {
        authors := authors + [name];
      }
      i := i + 1;
    }
    assert pieces[..|pieces|] == pieces;
  }

  lemma AuthorStringStep(pieces: seq<string>, i: nat)
    requires i < |pieces|
    ensures NonEmpty(StripAll(pieces[..i + 1])) ==
      NonEmpty(StripAll(pieces[..i])) + (if Strip(pieces[i]) != "" then [Strip(pieces[i])] else [])
  {
    StripAllSnoc(pieces, i);
    NonEmptySnoc(StripAll(pieces[..i]), Strip(pieces[i]));
  }

  lemma AuthorItemsStep(items: seq<AuthorEntry>, i: nat)
    requires i < |items|
    ensures NonEmpty(EntryNames(items[..i + 1])) ==
      NonEmpty(EntryNames(items[..i])) + (if EntryName(items[i]) != "" then [EntryName(items[i])] else [])
  {
    assert EntryNames(items[..i + 1]) == EntryNames(items[..i]) + [EntryName(items[i])];
    NonEmptySnoc(EntryNames(items[..i]), EntryName(items[i]));
  }

  /** Take each entry's name, keep the non-empty ones. */
  method ParseAuthorItems(items: seq<AuthorEntry>) returns (authors: seq<string>)
    ensures authors == NonEmpty(EntryNames(items))
  {
    authors := [];
    var i := 0;
    while i < |items|
      invariant 0 <= i <= |items|
      invariant authors == NonEmpty(EntryNames(items[..i]))
    {
      var name := match items[i] case AuthorDict(n) => n case AuthorScalar(t) => Strip(t);
      AuthorItemsStep(items, i);
      if name != "" {
        authors := authors + [name];
      }
      i := i + 1;
    }
    assert items[..|items|] == items;
  }

  /** Names parsed from a string are trimmed and hold no separator. */
  lemma AuthorStringNamesClean(s: string)
    ensures forall k :: 0 <= k < |AuthorsOf(AuthorString(s))| ==>
      Trimmed(AuthorsOf(AuthorString(s))[k]) && FreeOf(AuthorsOf(AuthorString(s))[k], AuthorSeparators)
  {
    var pieces := SplitOn(s, AuthorSeparators);
    var stripped := StripAll(pieces);
    forall k | 0 <= k < |AuthorsOf(AuthorString(s))|
      ensures FreeOf(AuthorsOf(AuthorString(s))[k], AuthorSeparators)
    {
      var m :| 0 <= m < |stripped| && stripped[m] == AuthorsOf(AuthorString(s))[k];
      StripFree(pieces[m], AuthorSeparators);
    }
  }

  /** Clean names joined with ';' or ',' parse back to the same names. */
  lemma AuthorStringRoundTrip(names: seq<string>, c: char)
    requires c in AuthorSeparators && |names| >= 1
    requires forall k :: 0 <= k < |names| ==> names[k] != "" && Trimmed(names[k]) && FreeOf(names[k], AuthorSeparators)
    ensures AuthorsOf(AuthorString(Join([c], names))) == names
  {
    SplitJoin(names, c, AuthorSeparators);
    assert StripAll(names) == names by {
      forall k | 0 <= k < |names| ensures Strip(names[k]) == names[k] {
        StripTrimmed(names[k]);
      }
    }
    NonEmptyKeepsAll(names);
  }

  /** The names with one leading space on every name but the first. */
  function SpacedPieces(names: seq<string>): (r: seq<string>)
    requires |names| >= 1
    ensures |r| == |names| && r[0] == names[0]
    ensures forall k :: 1 <= k < |names| ==> r[k] == " " + names[k]
  {
    [names[0]] + seq(|names| - 1, k requires 0 <= k < |names| - 1 => " " + names[k + 1])
  }

  /** Joining with a separator and a space is joining the spaced pieces
      with the separator alone. */
  lemma {:induction false} JoinSpaced(names: seq<string>, c: char)
    requires |names| >= 1
    ensures Join([c, ' '], names) == Join([c], SpacedPieces(names))
  {
    if |names| > 1 {
      var tail := names[1..];
      JoinSpaced(tail, c);
      var p := SpacedPieces(names);
      var q := SpacedPieces(tail);
      assert p == [names[0]] + ([" " + names[1]] + q[1..]);
      JoinSpacedStep(names[0], names[1], q, c);
    }
  }

  lemma JoinSpacedStep(first: string, second: string, q: seq<string>, c: char)
    requires |q| >= 1 && q[0] == second
    ensures first + [c, ' '] + Join([c], q) == Join([c], [first] + ([" " + second] + q[1..]))
  {
    var r := [" " + second] + q[1..];
    assert ([first] + r)[1..] == r;
    if |q| == 1 {
      assert Join([c], r) == " " + second;
    } else {
      assert r[1..] == q[1..];
      assert Join([c], r) == " " + second + [c] + Join([c], q[1..]);
      assert Join([c], q) == second + [c] + Join([c], q[1..]);
    }
  }

  /** Clean names joined with "; " or ", " (as in "Alice Smith, Bob Jones")
      parse back to the same names. */
  lemma AuthorStringSpacedRoundTrip(names: seq<string>, c: char)
    requires c in AuthorSeparators && |names| >= 1
    requires forall k :: 0 <= k < |names| ==> names[k] != "" && Trimmed(names[k]) && FreeOf(names[k], AuthorSeparators)
    ensures AuthorsOf(AuthorString(Join([c, ' '], names))) == names
  {
    JoinSpaced(names, c);
    var pieces := SpacedPieces(names);
    SpacedPiecesClean(names);
    SplitJoin(pieces, c, AuthorSeparators);
    NonEmptyKeepsAll(names);
  }

  /** The spaced pieces hold no separator and strip back to the names. */
  lemma SpacedPiecesClean(names: seq<string>)
    requires |names| >= 1
    requires forall k :: 0 <= k < |names| ==> names[k] != "" && Trimmed(names[k]) && FreeOf(names[k], AuthorSeparators)
    ensures forall k :: 0 <= k < |names| ==> FreeOf(SpacedPieces(names)[k], AuthorSeparators)
    ensures StripAll(SpacedPieces(names)) == names
  {
    var pieces := SpacedPieces(names);
    forall k | 0 <= k < |pieces| ensures FreeOf(pieces[k], AuthorSeparators) && Strip(pieces[k]) == names[k] {
      if k == 0 {
        StripTrimmed(names[0]);
      } else {
        SpacedPiece(names[k]);
      }
    }
  }

  /** A clean name after one space is still free of separators and strips
      back to the name. */
  lemma SpacedPiece(name: string)
    requires name != "" && Trimmed(name) && FreeOf(name, AuthorSeparators)
    ensures FreeOf(" " + name, AuthorSeparators) && Strip(" " + name) == name
  {
    StripLeadingSpace(name);
  }

  /** The `pub_year` field by its JSON type (missing and null alike). */
  datatype YearField =
    | YearMissing
    | YearBool(b: bool)
    | YearInt(n: int)
    | YearReal(r: real)
    | YearString(s: string)
    | YearOther   // a list or object: int() raises TypeError

  /** Python's `int(x)` on a float: truncation toward zero. */
  function Truncate(r: real): int {
    if r >= 0.0 then r.Floor else -((-r).Floor)
  }

  /** The year: None unless the field is truthy and converts with `int()`. */
  function ParsePubYear(field: YearField): (year: Option<int>)
    ensures field.YearMissing? || field.YearOther? ==> year == None
  {
    match field
    case YearMissing => None
    case YearBool(b) => if b then Some(1) else None
    case YearInt(n) => if n != 0 then Some(n) else None
    case YearReal(r) => if r != 0.0 then Some(Truncate(r)) else None
    case YearString(s) => if s != "" then ParseInt(s) else None
    case YearOther => None
  }

  /** A year given as a number or as its decimal text is kept; 0 is falsy
      and gives None, while the text "0" is truthy and gives 0. */
  lemma PubYearNumbers(n: int)
    ensures ParsePubYear(YearInt(n)) == if n == 0 then None else Some(n)
    ensures ParsePubYear(YearString(IntToString(n))) == Some(n)
  {
    ParseIntRoundTrip(n);
  }

  /** A year given as text is kept exactly when, stripped, it is an
      optional sign followed by decimal digits; so "2019-01", "12.5" and
      "--1" give None. */
  lemma PubYearText(s: string)
    ensures ParsePubYear(YearString(s)).Some? <==> SignedNumeral(Strip(s))
    ensures ParsePubYear(YearString("2019-01")) == None && ParsePubYear(YearString("12.5")) == None
    ensures ParsePubYear(YearString("1 2")) == None && ParsePubYear(YearString("--1")) == None
  {
    if s == "" {
      assert Strip(s) == "";
    }
    NotNumerals();
  }

  /** Text without a digit gives None. */
  lemma PubYearUnparsable(s: string)
    requires forall i :: 0 <= i < |s| ==> !('0' <= s[i] <= '9')
    ensures ParsePubYear(YearString(s)) == None
  {
    var t := Strip(s);
    if |t| > 0 {
      assert t[|t| - 1] !in Whitespace;
      var a := LeftEnd(s);
      assert t == s[a..][..RightEnd(s[a..])];
      assert t[|t| - 1] == s[a + |t| - 1];
      if |t| > 1 {
        assert !AllDigits(t[1..]) by { assert t[1..][|t| - 2] == t[|t| - 1]; }
      }
      assert !AllDigits(t) by { assert t[|t| - 1] == s[a + |t| - 1]; }
    }
  }

  /** The `id` field: `str()` of whatever is there. */
  datatype IdField = IdMissing | IdNull | IdText(s: string) | IdNumber(n: int)

  function IdString(field: IdField): string {
    match field
    case IdMissing => ""
    case IdNull => "None"
    case IdText(s) => s
    case IdNumber(n) => IntToString(n)
  }

  /** One document of a `results.json` page. Optional string fields are
      `None` when missing or null (`doc.get(k, "") or ""` makes both ""). */
  datatype Doc = Doc(
    id: IdField,
    title: string,
    shortAbstract: Option<string>,
    authorList: AuthorField,
    pubYear: YearField,
    journalTitle: Option<string>,
    doi: Option<string>,
    acknowledgements: Option<string>,
    fundingSection: Option<string>,
    timesCited: Option<int>,
    score: Option<real>)

  /** The text searched for funding branches: acknowledgements and funding
      section, separated by a space and stripped. */
  function BranchText(doc: Doc): string {
    Strip(doc.acknowledgements.GetOr("") + " " + doc.fundingSection.GetOr(""))
  }

  /** The detail-page url of a non-empty id, else "". */
  function DetailUrl(id: string): (url: string)
    ensures url == "" <==> id == ""
    ensures id != "" ==> StartsWith(url, DticDetailUrl + "/") && url[|DticDetailUrl| + 1..] == id
  {
    if id != "" then DticDetailUrl + "/" + id else ""
  }

  method ParsePublication(doc: Doc) returns (pub: Publication)
    ensures pub.id == IdString(doc.id) && pub.title == doc.title
    ensures pub.shortAbstract == doc.shortAbstract.GetOr("") && pub.fullAbstract == ""
    ensures pub.authors == AuthorsOf(doc.authorList)
    ensures pub.pubYear == ParsePubYear(doc.pubYear)
    ensures pub.journalTitle == doc.journalTitle.GetOr("") && pub.doi == doc.doi.GetOr("")
    ensures pub.acknowledgements == doc.acknowledgements.GetOr("")
    ensures pub.timesCited == doc.timesCited.GetOr(0) && pub.score == doc.score.GetOr(0.0)
    ensures pub.detectedBranches == Detected(BranchText(doc))
    ensures pub.url == DetailUrl(pub.id)
  {
    var authors := ParseAuthors(doc.authorList);
    var pubYear := ParsePubYear(doc.pubYear);
    var ack := doc.acknowledgements.GetOr("");
    var funding := doc.fundingSection.GetOr("");
    var branchText := Strip(ack + " " + funding);
    var pubId := IdString(doc.id);
    var branches := DetectBranches(branchText);
    pub := Publication(pubId, doc.title, doc.shortAbstract.GetOr(""), "", authors, pubYear,
                       doc.journalTitle.GetOr(""), doc.doi.GetOr(""), ack, doc.timesCited.GetOr(0),
                       doc.score.GetOr(0.0), branches, DetailUrl(pubId));
  }

  /** The per-query result lists, concatenated in query order. */
  function Flatten(batches: seq<seq<Publication>>): seq<Publication> {
    if |batches| == 0 then []
    else Flatten(batches[..|batches| - 1]) + batches[|batches| - 1]
  }

  function Ids(pubs: seq<Publication>): set<string> {
    set k | 0 <= k < |pubs| :: pubs[k].id
  }

  /** `out` holds, in order of first appearance, the first publication of
      `flat` with each non-empty id; `origin` gives their positions. */
  ghost predicate FirstOccurrences(flat: seq<Publication>, out: seq<Publication>, origin: seq<nat>) {
    && |origin| == |out|
    && (forall k :: 0 <= k < |out| ==> origin[k] < |flat| && flat[origin[k]] == out[k] && out[k].id != "")
    && (forall k1, k2 :: 0 <= k1 < k2 < |out| ==> origin[k1] < origin[k2])
    && (forall k1, k2 :: 0 <= k1 < k2 < |out| ==> out[k1].id != out[k2].id)
    && (forall k, j :: 0 <= k < |out| && 0 <= j < origin[k] ==> flat[j].id != out[k].id)
    && (forall i :: 0 <= i < |flat| && flat[i].id != "" ==> flat[i].id in Ids(out))
  }

  lemma IdsSnoc(pubs: seq<Publication>, x: Publication)
    ensures Ids(pubs + [x]) == Ids(pubs) + {x.id}
  {
    var pubs' := pubs + [x];
    forall id | id in Ids(pubs) ensures id in Ids(pubs') {
      var k :| 0 <= k < |pubs| && pubs[k].id == id;
      assert pubs'[k] == pubs[k];
    }
    assert pubs'[|pubs|] == x;
  }

  /** A publication with a new, non-empty id is appended. */
  lemma FirstOccurrencesAdd(flat: seq<Publication>, out: seq<Publication>, origin: seq<nat>, x: Publication)
    requires FirstOccurrences(flat, out, origin)
    requires x.id != "" && x.id !in Ids(out)
    ensures FirstOccurrences(flat + [x], out + [x], origin + [|flat|])
  {
    var flat', out', origin' := flat + [x], out + [x], origin + [|flat|];
    IdsSnoc(out, x);
    forall i | 0 <= i < |flat'| && flat'[i].id != "" ensures flat'[i].id in Ids(out') {
      if i < |flat| {
        assert flat[i].id in Ids(out);
      }
    }
    forall k1, k2 | 0 <= k1 < k2 < |out'| ensures out'[k1].id != out'[k2].id {
      if k2 == |out| {
        assert out[k1].id in Ids(out);
      }
    }
    forall k, j | 0 <= k < |out'| && 0 <= j < origin'[k] ensures flat'[j].id != out'[k].id {
      if k == |out| {
        assert flat[j].id != "" ==> flat[j].id in Ids(out);
      }
    }
  }

  /** A publication without an id, or with one already kept, is skipped. */
  lemma FirstOccurrencesSkip(flat: seq<Publication>, out: seq<Publication>, origin: seq<nat>, x: Publication)
    requires FirstOccurrences(flat, out, origin)
    requires x.id == "" || x.id in Ids(out)
    ensures FirstOccurrences(flat + [x], out, origin)
  {
    var flat' := flat + [x];
    forall i | 0 <= i < |flat'| && flat'[i].id != "" ensures flat'[i].id in Ids(out) {
      if i < |flat| {
        assert flat'[i] == flat[i];
      }
    }
  }

  /** Run every query (here: take its parsed publications) and keep the
      first publication seen with each non-empty id. */
  method SearchAll(batches: seq<seq<Publication>>) returns (allPubs: seq<Publication>, ghost origin: seq<nat>)
    ensures FirstOccurrences(Flatten(batches), allPubs, origin)
    ensures forall k1, k2 :: 0 <= k1 < k2 < |allPubs| ==> allPubs[k1].id != allPubs[k2].id
    ensures forall k :: 0 <= k < |allPubs| ==> allPubs[k].id != "" && allPubs[k] in Flatten(batches)
    ensures Ids(allPubs) == set i | 0 <= i < |Flatten(batches)| && Flatten(batches)[i].id != "" :: Flatten(batches)[i].id
  {
    var seenIds: set<string> := {};
    allPubs, origin := [], [];
    var q := 0;
    while q < |batches|
      invariant 0 <= q <= |batches|
      invariant seenIds == Ids(allPubs)
      invariant FirstOccurrences(Flatten(batches[..q]), allPubs, origin)
    {
      assert batches[..q + 1][..q] == batches[..q];
      seenIds, allPubs, origin := MergeBatch(batches[q], seenIds, allPubs, Flatten(batches[..q]), origin);
      q := q + 1;
    }
    assert batches[..|batches|] == batches;
    FirstOccurrencesFacts(Flatten(batches), allPubs, origin);
  }

  /** The inner loop of `SearchAll`: add the publications of one query
      whose ids have not been seen yet. */
  method MergeBatch(pubs: seq<Publication>, seenIds: set<string>, allPubs: seq<Publication>,
                    ghost flat: seq<Publication>, ghost origin: seq<nat>)
    returns (seenIds': set<string>, allPubs': seq<Publication>, ghost origin': seq<nat>)
    requires seenIds == Ids(allPubs) && FirstOccurrences(flat, allPubs, origin)
    ensures seenIds' == Ids(allPubs') && FirstOccurrences(flat + pubs, allPubs', origin')
  {
    seenIds', allPubs', origin' := seenIds, allPubs, origin;
    ghost var seen := flat;
    var p := 0;
    while p < |pubs|
      invariant 0 <= p <= |pubs|
      invariant seen == flat + pubs[..p]
      invariant seenIds' == Ids(allPubs')
      invariant FirstOccurrences(seen, allPubs', origin')
    {
      var pub := pubs[p];
      if pub.id != "" && pub.id !in seenIds' {
        FirstOccurrencesAdd(seen, allPubs', origin', pub);
        IdsSnoc(allPubs', pub);
        seenIds' := seenIds' + {pub.id};
        allPubs' := allPubs' + [pub];
        origin' := origin' + [|seen|];
      } else {
        FirstOccurrencesSkip(seen, allPubs', origin', pub);
      }
      seen := seen + [pub];
      assert pubs[..p + 1] == pubs[..p] + [pub];
      p := p + 1;
    }
    assert pubs[..|pubs|] == pubs;
  }

  /** The merged list has distinct, non-empty ids, each taken from some
      query's results, and covers every non-empty id those results hold. */
  lemma FirstOccurrencesFacts(flat: seq<Publication>, out: seq<Publication>, origin: seq<nat>)
    requires FirstOccurrences(flat, out, origin)
    ensures forall k1, k2 :: 0 <= k1 < k2 < |out| ==> out[k1].id != out[k2].id
    ensures forall k :: 0 <= k < |out| ==> out[k].id != "" && out[k] in flat
    ensures Ids(out) == set i | 0 <= i < |flat| && flat[i].id != "" :: flat[i].id
  {
    forall k | 0 <= k < |out| ensures out[k] in flat {
      assert flat[origin[k]] == out[k];
    }
    forall id | id in Ids(out)
      ensures id in set i | 0 <= i < |flat| && flat[i].id != "" :: flat[i].id
    {
      var k :| 0 <= k < |out| && out[k].id == id;
      assert flat[origin[k]].id == id;
    }
  }

  /** Full abstracts are not fetched: the batch comes back unchanged. */
  function FetchFullAbstractsBatch(publications: seq<Publication>, maxCount: int): (r: seq<Publication>)
    ensures r == publications
  {
    publications
  }
}
