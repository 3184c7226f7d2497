/** Python's `list.sort(key=k, reverse=True)` on values: a stable sort into
    non-increasing key order. Python guarantees that `reverse=True` keeps
    equal-key elements in their original order, which an insertion sort that
    puts each element before the first one with a key not larger than its
    own reproduces. */
module Sorting {

  function MapSeq<A, B>(f: A -> B, s: seq<A>): (r: seq<B>)
    ensures |r| == |s|
    ensures forall i :: 0 <= i < |s| ==> r[i] == f(s[i])
  {
    seq(|s|, i requires 0 <= i < |s| => f(s[i]))
  }

  /** Mapping a list one element longer appends one mapped element. */
  lemma MapSeqSnoc<A, B>(f: A -> B, s: seq<A>, i: nat)
    requires i < |s|
    ensures MapSeq(f, s[..i + 1]) == MapSeq(f, s[..i]) + [f(s[i])]
  {
  }

  /** Insert `x` in front of the first element whose key is not larger. */
  function InsertDesc<T>(x: T, s: seq<T>, key: T -> real): (r: seq<T>)
    ensures |r| == |s| + 1
    ensures multiset(r) == multiset(s) + multiset{x}
  {
    if |s| == 0 || key(s[0]) <= key(x) then [x] + s
    else
      assert s == [s[0]] + s[1..];
      [s[0]] + InsertDesc(x, s[1..], key)
  }

  /** Stable sort by descending key. */
  function SortDesc<T>(s: seq<T>, key: T -> real): (r: seq<T>)
    ensures |r| == |s|
    ensures multiset(r) == multiset(s)
  {
    if |s| == 0 then []
    else
      assert s == [s[0]] + s[1..];
      InsertDesc(s[0], SortDesc(s[1..], key), key)
  }

  /** Ordered by descending key, and among equal keys by ascending tag. */
  ghost predicate StablyOrdered<T>(s: seq<T>, key: T -> real, tag: T -> int) {
    forall i, j :: 0 <= i < j < |s| ==>
      key(s[i]) > key(s[j]) || (key(s[i]) == key(s[j]) && tag(s[i]) < tag(s[j]))
  }

  ghost predicate TagsIncreasing<T>(s: seq<T>, tag: T -> int) {
    forall i, j :: 0 <= i < j < |s| ==> tag(s[i]) < tag(s[j])
  }

  lemma {:induction false} InsertStable<T>(x: T, s: seq<T>, key: T -> real, tag: T -> int)
    requires StablyOrdered(s, key, tag)
    requires forall y :: y in s ==> tag(x) < tag(y)
    ensures StablyOrdered(InsertDesc(x, s, key), key, tag)
  {
    var r := InsertDesc(x, s, key);
    if |s| == 0 || key(s[0]) <= key(x) {
      assert r == [x] + s;
      forall j | 0 < j < |r| ensures key(r[0]) > key(r[j]) || (key(r[0]) == key(r[j]) && tag(r[0]) < tag(r[j])) {
        assert r[j] == s[j - 1] && s[j - 1] in s;
        if j > 1 {
          assert key(s[0]) >= key(s[j - 1]);
        }
      }
    } else {
      var t := InsertDesc(x, s[1..], key);
      assert StablyOrdered(s[1..], key, tag);
      forall y | y in s[1..] ensures tag(x) < tag(y) {
        assert y in s;
      }
      InsertStable(x, s[1..], key, tag);
      assert r == [s[0]] + t;
      forall j | 0 < j < |r| ensures key(r[0]) > key(r[j]) || (key(r[0]) == key(r[j]) && tag(r[0]) < tag(r[j])) {
        assert r[j] in multiset(t);
        if r[j] != x {
          assert r[j] in multiset(s[1..]);
          var k :| 0 <= k < |s[1..]| && s[1..][k] == r[j];
          assert s[k + 1] == r[j];
        }
      }
    }
  }

  /** Sorting input whose tags increase yields a list ordered by descending
      key with ties in input order: the sort is stable. */
  lemma {:induction false} SortDescStable<T>(s: seq<T>, key: T -> real, tag: T -> int)
    requires TagsIncreasing(s, tag)
    ensures StablyOrdered(SortDesc(s, key), key, tag)
  {
    if |s| > 0 {
      var t := SortDesc(s[1..], key);
      SortDescStable(s[1..], key, tag);
      forall y | y in t ensures tag(s[0]) < tag(y) {
        assert y in multiset(s[1..]);
        var k :| 0 <= k < |s[1..]| && s[1..][k] == y;
        assert s[k + 1] == y;
      }
      InsertStable(s[0], t, key, tag);
    }
  }

  lemma {:induction false} InsertMap<A, B>(x: A, s: seq<A>, f: A -> B, keyA: A -> real, keyB: B -> real)
    requires forall a :: keyA(a) == keyB(f(a))
    ensures MapSeq(f, InsertDesc(x, s, keyA)) == InsertDesc(f(x), MapSeq(f, s), keyB)
  {
    var fs := MapSeq(f, s);
    if |s| == 0 || keyA(s[0]) <= keyA(x) {
      assert MapSeq(f, [x] + s) == [f(x)] + fs;
    } else {
      InsertMap(x, s[1..], f, keyA, keyB);
      assert fs[1..] == MapSeq(f, s[1..]);
      assert MapSeq(f, [s[0]] + InsertDesc(x, s[1..], keyA)) == [f(s[0])] + MapSeq(f, InsertDesc(x, s[1..], keyA));
    }
  }

  /** Sorting commutes with mapping when the keys agree: sorting a list of
      pairs and then projecting equals projecting and then sorting. */
  lemma {:induction false} SortDescMap<A, B>(s: seq<A>, f: A -> B, keyA: A -> real, keyB: B -> real)
    requires forall a :: keyA(a) == keyB(f(a))
    ensures MapSeq(f, SortDesc(s, keyA)) == SortDesc(MapSeq(f, s), keyB)
  {
    if |s| > 0 {
      var fs := MapSeq(f, s);
      SortDescMap(s[1..], f, keyA, keyB);
      assert fs[1..] == MapSeq(f, s[1..]);
      InsertMap(s[0], SortDesc(s[1..], keyA), f, keyA, keyB);
    }
  }
}
