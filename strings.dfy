/** Generic sequence splitting used by the URL and form-urlencoded parsers. */
module Strings {
  import opened Results

  /** Splits `s` at the first occurrence of `c`: the part before it, and the part
      after it when `c` occurs at all. */
  function SplitFirst<T(==)>(s: seq<T>, c: T): (r: (seq<T>, Option<seq<T>>))
    ensures c !in r.0
    ensures r.1.None? ==> r.0 == s
    ensures r.1.Some? ==> s == r.0 + [c] + r.1.value
    decreases |s|
  {
    if s == [] then ([], None)
    else if s[0] == c then ([], Some(s[1..]))
    else
      var (before, after) := SplitFirst(s[1..], c);
      ([s[0]] + before, after)
  }

  /** The first occurrence of `c` in `a + [c] + b` is the one right after `a`. */
  lemma {:induction false} SplitFirstAt<T>(a: seq<T>, c: T, b: seq<T>)
    requires c !in a
    ensures SplitFirst(a + [c] + b, c) == (a, Some(b))
  {
    var s := a + [c] + b;
    if a == [] {
      assert s[1..] == b;
    } else {
      assert s[1..] == a[1..] + [c] + b;
      SplitFirstAt(a[1..], c, b);
      assert [a[0]] + a[1..] == a;
    }
  }

  /** Without an occurrence of `c` nothing is split off. */
  lemma SplitFirstAbsent<T>(s: seq<T>, c: T)
    requires c !in s
    ensures SplitFirst(s, c) == (s, None)
  {
  }

  /** Splits `s` at every occurrence of `c` (the "strictly split" of the WHATWG
      Infra Standard): the pieces contain no `c` and there is one more piece than
      occurrences of `c`. */
  function SplitAll<T(==)>(s: seq<T>, c: T): (r: seq<seq<T>>)
    ensures |r| >= 1
    ensures forall i :: 0 <= i < |r| ==> c !in r[i]
    ensures c !in s ==> r == [s]
    decreases |s|
  {
    var (before, after) := SplitFirst(s, c);
    match after
    case None => [before]
    case Some(rest) => [before] + SplitAll(rest, c)
  }

  /** Splitting a piece without `c`, then `c`, then more, splits off that piece. */
  lemma SplitAllAt<T>(a: seq<T>, c: T, b: seq<T>)
    requires c !in a
    ensures SplitAll(a + [c] + b, c) == [a] + SplitAll(b, c)
  {
    SplitFirstAt(a, c, b);
  }

  /** Every element of every piece is an element of the split sequence, so a
      property of all elements carries over to the pieces. */
  lemma {:induction false} SplitAllKeeps<T>(s: seq<T>, c: T, P: T -> bool)
    requires forall i :: 0 <= i < |s| ==> P(s[i])
    ensures forall k, j :: 0 <= k < |SplitAll(s, c)| && 0 <= j < |SplitAll(s, c)[k]| ==> P(SplitAll(s, c)[k][j])
    decreases |s|
  {
    var (before, after) := SplitFirst(s, c);
    if after.Some? {
      var rest := after.value;
      assert forall j :: 0 <= j < |before| ==> before[j] == s[j];
      assert forall j :: 0 <= j < |rest| ==> rest[j] == s[|before| + 1 + j];
      SplitAllKeeps(rest, c, P);
      var r := SplitAll(s, c);
      assert r == [before] + SplitAll(rest, c);
      forall k, j | 0 <= k < |r| && 0 <= j < |r[k]| ensures P(r[k][j]) {
        if k > 0 {
          assert r[k] == SplitAll(rest, c)[k - 1];
        }
      }
    }
  }

  /** True when `prefix` is an initial segment of `s`. */
  predicate StartsWith<T(==)>(s: seq<T>, prefix: seq<T>)
  {
    |prefix| <= |s| && s[..|prefix|] == prefix
  }

  /** `s` with every `from` replaced by `to` (String.prototype.replace with a
      global pattern of one character). */
  function ReplaceAll<T(==)>(s: seq<T>, from: T, to: T): (r: seq<T>)
    ensures |r| == |s|
    ensures forall i :: 0 <= i < |s| ==> r[i] == (if s[i] == from then to else s[i])
  {
    if s == [] then []
    else [if s[0] == from then to else s[0]] + ReplaceAll(s[1..], from, to)
  }

  /** `s` with its first `c` removed (String.prototype.replace with a one-character
      string pattern and an empty replacement). */
  function RemoveFirst<T(==)>(s: seq<T>, c: T): (r: seq<T>)
    ensures c !in s ==> r == s
    ensures |r| == |s| - (if c in s then 1 else 0)
    ensures c in s ==> exists k :: 0 <= k < |s| && s[k] == c && c !in s[..k] && r == s[..k] + s[k + 1..]
  {
    var (before, after) := SplitFirst(s, c);
    match after
    case None => before
    case Some(rest) =>
      var k := |before|;
      assert s[k] == c && s[..k] == before && s[k + 1..] == rest;
      before + rest
  }

  /** Removing the first `c` from `a + [c] + b` leaves `a + b`. */
  lemma RemoveFirstAt<T>(a: seq<T>, c: T, b: seq<T>)
    requires c !in a
    ensures RemoveFirst(a + [c] + b, c) == a + b
  {
    SplitFirstAt(a, c, b);
  }

  /** Replacing characters commutes with concatenation. */
  lemma ReplaceAllConcat<T>(a: seq<T>, b: seq<T>, from: T, to: T)
    ensures ReplaceAll(a + b, from, to) == ReplaceAll(a, from, to) + ReplaceAll(b, from, to)
  {
    var l, r := ReplaceAll(a + b, from, to), ReplaceAll(a, from, to) + ReplaceAll(b, from, to);
    assert |l| == |r|;
    forall i | 0 <= i < |l| ensures l[i] == r[i] {
      if i >= |a| {
        assert (a + b)[i] == b[i - |a|];
      }
    }
  }

  /** Replacing a value that does not occur changes nothing. */
  lemma ReplaceAllAbsent<T>(s: seq<T>, from: T, to: T)
    requires from !in s
    ensures ReplaceAll(s, from, to) == s
  {
    var r := ReplaceAll(s, from, to);
    assert forall i :: 0 <= i < |s| ==> r[i] == s[i];
  }
}
