/** Python string operations used by the analyzer, over ASCII text.
    Python strings are modelled as `seq<char>`; `lower`, `strip`, `split`
    and `isalnum` follow Python's rules for the ASCII range. */
module Strings {

  /** The characters Python's `str.isspace()` accepts in the ASCII range. */
  const Whitespace: set<char> :=
    {' ', '\t', '\n', '\U{000B}', '\U{000C}', '\r', '\U{001C}', '\U{001D}', '\U{001E}', '\U{001F}'}

  /** Membership in `Whitespace`, written as its two code-point ranges
      ('\t' to '\r', and '\U{001C}' to ' '). */
  predicate IsSpace(c: char) {
    ('\t' <= c <= '\r') || ('\U{001C}' <= c <= ' ')
  }

  lemma IsSpaceWhitespace(c: char)
    ensures IsSpace(c) <==> c in Whitespace
  {
  }

  /** Python's `str.isalnum()` for one ASCII character. */
  predicate IsAlnum(c: char) {
    ('a' <= c <= 'z') || ('A' <= c <= 'Z') || ('0' <= c <= '9')
  }

  function LowerChar(c: char): char {
    if 'A' <= c <= 'Z' then (c as int + 32) as char else c
  }

  /** Python's `str.lower()` over ASCII. */
  function Lower(s: string): (r: string)
    ensures |r| == |s|
    ensures forall i :: 0 <= i < |s| ==> r[i] == LowerChar(s[i])
  {
    seq(|s|, i requires 0 <= i < |s| => LowerChar(s[i]))
  }

  predicate StartsWith(s: string, prefix: string) {
    |prefix| <= |s| && s[..|prefix|] == prefix
  }

  /** `t` occurs in `s` starting at index `i`. */
  predicate OccursAt(s: string, t: string, i: int) {
    0 <= i && i + |t| <= |s| && s[i..i + |t|] == t
  }

  /** Python's `t in s` for strings: `t` occurs in `s` as a contiguous piece. */
  predicate Contains(s: string, t: string) {
    exists i :: 0 <= i <= |s| - |t| && OccursAt(s, t, i)
  }

  /** The number of whitespace characters at the start of `s`. */
  function LeftEnd(s: string): (k: nat)
    ensures k <= |s|
    ensures forall i :: 0 <= i < k ==> IsSpace(s[i])
    ensures k == |s| || !IsSpace(s[k])
  {
    if |s| > 0 && IsSpace(s[0]) then 1 + LeftEnd(s[1..]) else 0
  }

  /** The length of `s` without its trailing whitespace. */
  function RightEnd(s: string): (k: nat)
    ensures k <= |s|
    ensures forall i :: k <= i < |s| ==> IsSpace(s[i])
    ensures k == 0 || !IsSpace(s[k - 1])
  {
    if |s| > 0 && IsSpace(s[|s| - 1]) then RightEnd(s[..|s| - 1]) else |s|
  }

  predicate Trimmed(s: string) {
    s == [] || (!IsSpace(s[0]) && !IsSpace(s[|s| - 1]))
  }

  /** Python's `str.strip()`: drop leading and trailing whitespace. */
  function Strip(s: string): (r: string)
    ensures Trimmed(r)
    ensures |r| <= |s|
  {
    var t := s[LeftEnd(s)..];
    t[..RightEnd(t)]
  }

  lemma StripTrimmed(s: string)
    requires Trimmed(s)
    ensures Strip(s) == s
  {
    var t := s[LeftEnd(s)..];
    assert LeftEnd(s) == 0;
    assert t == s;
    assert RightEnd(t) == |t|;
  }

  /** Python's `sep.join(parts)`. */
  function Join(sep: string, parts: seq<string>): string {
    if |parts| == 0 then ""
    else if |parts| == 1 then parts[0]
    else parts[0] + sep + Join(sep, parts[1..])
  }

  lemma {:induction false} JoinAppend(sep: string, parts: seq<string>, x: string)
    ensures Join(sep, parts + [x]) == if |parts| == 0 then x else Join(sep, parts) + sep + x
  {
    if |parts| > 1 {
      assert (parts + [x])[1..] == parts[1..] + [x];
      JoinAppend(sep, parts[1..], x);
    } else if |parts| == 1 {
      assert (parts + [x])[1..] == [x];
    }
  }

  lemma ContainsShift(s: string, t: string, pre: string, post: string)
    requires Contains(s, t)
    ensures Contains(pre + s + post, t)
  {
    var i :| 0 <= i <= |s| - |t| && OccursAt(s, t, i);
    assert s[i..i + |t|] == t;
    var w := pre + s + post;
    assert w[|pre| + i..|pre| + i + |t|] == t;
    assert OccursAt(w, t, |pre| + i);
  }

  lemma ContainsSelf(s: string)
    ensures Contains(s, s)
  {
    assert s[0..|s|] == s;
    assert OccursAt(s, s, 0);
  }

  /** Occurrence is transitive: a piece of a piece is a piece. */
  lemma ContainsTrans(s: string, t: string, u: string)
    requires Contains(s, t) && Contains(t, u)
    ensures Contains(s, u)
  {
    var i :| 0 <= i <= |s| - |t| && OccursAt(s, t, i);
    var j :| 0 <= j <= |t| - |u| && OccursAt(t, u, j);
    assert s[i..i + |t|] == t && t[j..j + |u|] == u;
    forall k | 0 <= k < |u| ensures s[i + j + k] == u[k] {
      assert s[i + j + k] == s[i..i + |t|][j + k] == t[j..j + |u|][k];
    }
    assert s[i + j..i + j + |u|] == u;
    assert OccursAt(s, u, i + j);
  }

  /** A joined list starts with its first part. */
  lemma JoinStartsWith(sep: string, parts: seq<string>)
    requires |parts| >= 1
    ensures StartsWith(Join(sep, parts), parts[0])
  {
    if |parts| > 1 {
      var w := Join(sep, parts);
      assert w == parts[0] + sep + Join(sep, parts[1..]);
      assert w[..|parts[0]|] == parts[0];
    }
  }

  /** Every part of a joined list occurs in the joined text. */
  lemma {:induction false} JoinContains(sep: string, parts: seq<string>, k: nat)
    requires k < |parts|
    ensures Contains(Join(sep, parts), parts[k])
  {
    if |parts| == 1 {
      ContainsSelf(parts[0]);
    } else if k == 0 {
      ContainsSelf(parts[0]);
      ContainsShift(parts[0], parts[0], "", sep + Join(sep, parts[1..]));
      assert "" + parts[0] + (sep + Join(sep, parts[1..])) == Join(sep, parts);
    } else {
      JoinContains(sep, parts[1..], k - 1);
      ContainsShift(Join(sep, parts[1..]), parts[k], parts[0] + sep, "");
      assert (parts[0] + sep) + Join(sep, parts[1..]) + "" == Join(sep, parts);
    }
  }

  predicate FreeOf(t: string, seps: set<char>) {
    forall i :: 0 <= i < |t| ==> t[i] !in seps
  }

  /** Python's `s.split(c)` generalised to a set of one-character separators
      (`re.split("[;,]", s)` is the case `{';', ','}`): every separator ends a
      piece, so `n` separators give `n + 1` pieces, some possibly empty. */
  function SplitOn(s: string, seps: set<char>): (r: seq<string>)
    ensures |r| >= 1
    ensures forall k :: 0 <= k < |r| ==> FreeOf(r[k], seps)
  {
    if |s| == 0 then [""]
    else
      var rest := SplitOn(s[1..], seps);
      if s[0] in seps then [""] + rest else [[s[0]] + rest[0]] + rest[1..]
  }

  /** Joining the pieces with the separator gives the text back. */
  lemma {:induction false} JoinSplit(s: string, c: char)
    ensures Join([c], SplitOn(s, {c})) == s
  {
    if |s| > 0 {
      var rest := SplitOn(s[1..], {c});
      JoinSplit(s[1..], c);
      if s[0] == c {
        assert SplitOn(s, {c}) == [""] + rest;
        assert ([""] + rest)[1..] == rest;
        assert s == [c] + s[1..];
      } else {
        var r := [[s[0]] + rest[0]] + rest[1..];
        assert SplitOn(s, {c}) == r;
        if |rest| == 1 {
          assert r == [[s[0]] + rest[0]];
        } else {
          assert r[1..] == rest[1..];
          assert Join([c], rest) == rest[0] + [c] + Join([c], rest[1..]);
        }
      }
    }
  }

  lemma {:induction false} SplitPrefixPiece(p: string, c: char, seps: set<char>, tail: string)
    requires c in seps && FreeOf(p, seps)
    ensures SplitOn(p + [c] + tail, seps) == [p] + SplitOn(tail, seps)
  {
    if |p| == 0 {
      assert p + [c] + tail == [c] + tail;
      assert ([c] + tail)[1..] == tail;
    } else {
      var w := p + [c] + tail;
      assert w[1..] == p[1..] + [c] + tail;
      assert w[0] == p[0] && p[0] !in seps;
      SplitPrefixPiece(p[1..], c, seps, tail);
      assert [p[0]] + p[1..] == p;
    }
  }

  lemma {:induction false} SplitFree(p: string, seps: set<char>)
    requires FreeOf(p, seps)
    ensures SplitOn(p, seps) == [p]
  {
    if |p| > 0 {
      SplitFree(p[1..], seps);
      assert [p[0]] + p[1..] == p;
    }
  }

  /** Splitting a joined list gives the list back when no piece holds a
      separator and the joining character is one. */
  lemma {:induction false} SplitJoin(parts: seq<string>, c: char, seps: set<char>)
    requires |parts| >= 1 && c in seps
    requires forall k :: 0 <= k < |parts| ==> FreeOf(parts[k], seps)
    ensures SplitOn(Join([c], parts), seps) == parts
  {
    if |parts| == 1 {
      SplitFree(parts[0], seps);
    } else {
      SplitJoin(parts[1..], c, seps);
      SplitPrefixPiece(parts[0], c, seps, Join([c], parts[1..]));
      assert [parts[0]] + parts[1..] == parts;
    }
  }

  /** The pieces that are not empty, in order. */
  function NonEmpty(parts: seq<string>): (r: seq<string>)
    ensures |r| <= |parts|
    ensures forall k :: 0 <= k < |r| ==> r[k] != "" && r[k] in parts
    ensures forall k :: 0 <= k < |parts| && parts[k] != "" ==> parts[k] in r
  {
    if |parts| == 0 then []
    else if parts[0] == "" then NonEmpty(parts[1..])
    else [parts[0]] + NonEmpty(parts[1..])
  }

  /** A list without empty pieces is kept whole. */
  lemma {:induction false} NonEmptyKeepsAll(parts: seq<string>)
    requires forall k :: 0 <= k < |parts| ==> parts[k] != ""
    ensures NonEmpty(parts) == parts
  {
    if |parts| > 0 {
      NonEmptyKeepsAll(parts[1..]);
      assert [parts[0]] + parts[1..] == parts;
    }
  }

  /** Filtering a list one piece longer. */
  lemma {:induction false} NonEmptySnoc(parts: seq<string>, x: string)
    ensures NonEmpty(parts + [x]) == NonEmpty(parts) + (if x != "" then [x] else [])
  {
    if |parts| > 0 {
      assert (parts + [x])[1..] == parts[1..] + [x];
      NonEmptySnoc(parts[1..], x);
    }
  }

  /** The stripped text is a slice of the text, from its first
      non-whitespace character on. */
  lemma StripChars(s: string)
    ensures forall i :: 0 <= i < |Strip(s)| ==> LeftEnd(s) + i < |s| && Strip(s)[i] == s[LeftEnd(s) + i]
  {
    var t := s[LeftEnd(s)..];
    assert Strip(s) == t[..RightEnd(t)];
  }

  /** Stripping keeps a piece free of separators. */
  lemma StripFree(s: string, seps: set<char>)
    requires FreeOf(s, seps)
    ensures FreeOf(Strip(s), seps)
  {
    var a := LeftEnd(s);
    var t := s[a..];
    forall i | 0 <= i < |Strip(s)| ensures Strip(s)[i] !in seps {
      assert Strip(s)[i] == t[i] == s[a + i];
    }
  }

  /** One leading space is stripped from a trimmed non-empty piece. */
  lemma StripLeadingSpace(s: string)
    requires s != [] && Trimmed(s)
    ensures Strip(" " + s) == s
  {
    var w := " " + s;
    assert w[1..] == s;
    assert LeftEnd(w) == 1 + LeftEnd(s);
    StripTrimmed(s);
  }

  function StripAll(parts: seq<string>): (r: seq<string>)
    ensures |r| == |parts|
    ensures forall k :: 0 <= k < |r| ==> r[k] == Strip(parts[k])
  {
    seq(|parts|, k requires 0 <= k < |parts| => Strip(parts[k]))
  }

  /** Stripping a list one piece longer. */
  lemma StripAllSnoc(parts: seq<string>, i: nat)
    requires i < |parts|
    ensures StripAll(parts[..i + 1]) == StripAll(parts[..i]) + [Strip(parts[i])]
  {
  }

  /** Python's `s.split()` with no argument: the maximal runs of
      non-whitespace characters. */
  function Words(s: string): (r: seq<string>)
    ensures forall k :: 0 <= k < |r| ==> r[k] != "" && FreeOf(r[k], Whitespace)
  {
    NonEmpty(SplitOn(s, Whitespace))
  }

  /** The empty text has no words. */
  lemma NoWordsInEmpty()
    ensures Words("") == []
  {
    assert SplitOn("", Whitespace) == [""];
  }

  /** Joining words with single spaces and splitting the text on
      whitespace gives the words back. */
  lemma WordsOfJoin(ws: seq<string>)
    requires forall k :: 0 <= k < |ws| ==> ws[k] != "" && FreeOf(ws[k], Whitespace)
    ensures Words(Join(" ", ws)) == ws
  {
    if |ws| == 0 {
      NoWordsInEmpty();
    } else {
      assert " " == [' '];
      SplitJoin(ws, ' ', Whitespace);
      NonEmptyKeepsAll(ws);
    }
  }

  /** Python's `s.replace(pat, "")`: occurrences are found left to right and
      do not overlap; the text left behind is not searched again. */
  function RemoveAll(s: string, pat: string): (r: string)
    requires |pat| > 0
    ensures |r| <= |s|
    decreases |s|
  {
    if |s| == 0 then s
    else if StartsWith(s, pat) then RemoveAll(s[|pat|..], pat)
    else [s[0]] + RemoveAll(s[1..], pat)
  }

  lemma {:induction false} RemoveAllAbsent(s: string, pat: string)
    requires |pat| > 0
    requires !Contains(s, pat)
    ensures RemoveAll(s, pat) == s
  {
    if |s| > 0 {
      if StartsWith(s, pat) {
        assert OccursAt(s, pat, 0);
      }
      if Contains(s[1..], pat) {
        var i :| 0 <= i <= |s[1..]| - |pat| && OccursAt(s[1..], pat, i);
        assert s[1..][i..i + |pat|] == pat;
        assert s[i + 1..i + 1 + |pat|] == pat;
        assert OccursAt(s, pat, i + 1);
      }
      RemoveAllAbsent(s[1..], pat);
      assert [s[0]] + s[1..] == s;
    }
  }
}
