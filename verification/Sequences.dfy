/**
  How slices and concatenations of sequences fit together, stated once so that other proofs need not unfold them.
*/
module Sequences {
  lemma AppendShape<T>(a: seq<T>, b: seq<T>, n: nat)
    requires n <= |a|
    ensures a + b == a[..n] + (a[n..] + b)
    ensures a != [] ==> (a + b)[0] == a[0] && (a + b)[1..] == a[1..] + b
  {
  }

  lemma Middle<T>(before: seq<T>, x: T, after: seq<T>)
    ensures var all := before + [x] + after;
      all[|before|] == x && all[..|before|] == before && all[|before| + 1..] == after
  {
  }

  lemma Slices<T>(s: seq<T>, i: nat, j: nat)
    requires i < j <= |s|
    ensures s[i..] == s[i..j] + s[j..] && s[i..][1..] == s[i + 1..] && s[i..j][1..] == s[i + 1..j]
    ensures s[i + 1..][..j - i - 1] == s[i + 1..j]
    ensures s[i..j] == s[i..j - 1] + [s[j - 1]]
  {
  }

  lemma Cuts<T>(s: seq<T>, at: nat, end: nat)
    requires at < end <= |s|
    ensures s == s[..at] + s[at..] && s[at..][..end - at] == s[at..end] && s[at..][end - at..] == s[end..]
    ensures s[at..end][0] == s[at] && s[at..][0] == s[at]
  {
  }

  lemma Whole<T>(s: seq<T>, k: nat)
    requires k < |s|
    ensures s[..k] + [s[k]] + s[k + 1..] == s
  {
  }

  lemma CutBehindFirst<T>(s: seq<T>, n: nat)
    requires 1 <= n <= |s|
    ensures s[..n][1..] == s[1..][..n - 1] && s[n..] == s[1..][n - 1..]
  {
  }

  lemma CutThree<T>(s: seq<T>, n: nat, b: nat)
    requires n + b <= |s|
    ensures s == s[..n] + s[n..n + b] + s[n + b..]
  {
  }

  lemma CutConcat<T>(a: seq<T>, b: seq<T>, k: nat)
    requires k <= |a|
    ensures (a + b)[..k] == a[..k] && (a + b)[k..] == a[k..] + b
  {
  }

  lemma Replaced<T>(s: seq<T>, k: nat, x: T)
    requires k < |s|
    ensures s[..k] + [x] + s[k + 1..] == s[k := x]
  {
  }

  lemma NextSlice<T>(p: seq<T>, q: seq<T>, s: seq<T>, n: nat)
    requires 0 < n <= |s| && p == s[..n - 1] && q == p + [s[n - 1]]
    ensures q == s[..n]
  {
  }

  lemma Inserted<T>(s: seq<T>, at: nat, x: T)
    requires at <= |s|
    ensures var r := s[..at] + [x] + s[at..];
      && |r| == |s| + 1
      && (forall k :: 0 <= k < |r| ==> r[k] == if k < at then s[k] else if k == at then x else s[k - 1])
      && forall y :: y in r <==> y in s || y == x
  {
    assert s == s[..at] + s[at..];
  }

  lemma Regroup<T>(a: seq<T>, b: seq<T>, c: seq<T>)
    ensures a + (b + c) == (a + b) + c
  {
  }

  /** What follows a common prefix is what two sequences may differ in. */
  lemma SamePrefix<T>(p: seq<T>, a: seq<T>, b: seq<T>)
    ensures p + a == p + b <==> a == b
  {
    assert (p + a)[|p|..] == a && (p + b)[|p|..] == b;
  }

  lemma ThreeParts<T>(x: T, b: seq<T>, c: seq<T>)
    ensures var s := [x] + b + c;
      s[0] == x && s[1..] == b + c && s[..1 + |b|] == [x] + b && ([x] + b)[1..] == b && s[1 + |b|..] == c
  {
  }

  lemma FirstDiffers<T>(all: seq<T>, p: seq<T>, q: seq<T>)
    requires all != [] && p != [] && all[0] != p[0]
    ensures all != p + q
  {
    assert (p + q)[0] == p[0];
  }

  lemma SameHeadDiffers<T>(t: T, a: seq<T>, b: seq<T>)
    requires a != b
    ensures [t] + a != [t] + b
  {
    assert a == ([t] + a)[1..] && b == ([t] + b)[1..];
  }

  lemma FirstOrLater<T>(first: T, later: seq<T>, all: seq<T>, k: nat)
    requires all == [first] + later && k < |all|
    ensures all[k] == if k == 0 then first else later[k - 1]
  {
  }
}
