/** Facts about slices and concatenations. */
module Sequences {

  lemma ConcatAssociates<T>(a: seq<T>, b: seq<T>, c: seq<T>)
    ensures (a + b) + c == a + (b + c)
  {
  }

  lemma ConcatParts<T>(a: seq<T>, b: seq<T>)
    ensures (a + b)[..|a|] == a && (a + b)[|a|..] == b
  {
  }

  lemma SlicesJoin<T>(s: seq<T>, i: nat, j: nat, k: nat)
    requires i <= j <= k <= |s|
    ensures s[i..j] + s[j..k] == s[i..k]
  {
  }

  lemma SliceOfPrefix<T>(s: seq<T>, t: seq<T>, i: nat, j: nat)
    requires i <= j <= |s| && j <= |t| && s[..j] == t[..j]
    ensures s[i..j] == t[i..j]
  {
    assert s[..j][i..] == s[i..j] && t[..j][i..] == t[i..j];
  }

  lemma SliceOfSuffix<T>(s: seq<T>, t: seq<T>, j: nat, i: nat)
    requires j <= i <= |s| == |t| && s[j..] == t[j..]
    ensures s[i..] == t[i..]
  {
    assert s[j..][i - j..] == s[i..] && t[j..][i - j..] == t[i..];
  }

  lemma TakeNext<T>(s: seq<T>, i: nat)
    requires i < |s|
    ensures s[..i + 1] == s[..i] + [s[i]]
  {
  }

  lemma TakeJoins<T>(s: seq<T>, i: nat, j: nat)
    requires i <= j <= |s|
    ensures s[..j] == s[..i] + s[i..j]
  {
  }

  lemma SuffixGrows<T>(s: seq<T>, i: nat, x: T)
    requires i <= |s|
    ensures (s + [x])[i..] == s[i..] + [x]
  {
  }

  lemma PrefixJoins<T>(s: seq<T>, t: seq<T>)
    requires s <= t
    ensures s + t[|s|..] == t
  {
  }

  /** `s` with `part` written over it from `at` on. */
  function Spliced<T>(s: seq<T>, at: nat, part: seq<T>): (r: seq<T>)
    requires at + |part| <= |s|
    ensures |r| == |s|
  {
    s[..at] + part + s[at + |part|..]
  }

  lemma SpliceNothing<T>(s: seq<T>, at: nat)
    requires at <= |s|
    ensures Spliced(s, at, []) == s
  {
  }

  lemma SpliceParts<T>(s: seq<T>, at: nat, part: seq<T>)
    requires at + |part| <= |s|
    ensures Spliced(s, at, part)[..at] == s[..at]
    ensures Spliced(s, at, part)[at..at + |part|] == part
    ensures Spliced(s, at, part)[at + |part|..] == s[at + |part|..]
  {
  }

  /** Writing one part after the other is writing both. */
  lemma SpliceJoins<T>(s: seq<T>, at: nat, a: seq<T>, b: seq<T>)
    requires at + |a| + |b| <= |s|
    ensures Spliced(Spliced(s, at, a), at + |a|, b) == Spliced(s, at, a + b)
  {
    SpliceParts(s, at, a);
  }

  /** What lies apart from the part is as it was. */
  lemma SpliceApart<T>(s: seq<T>, at: nat, part: seq<T>, from: nat, to: nat)
    requires at + |part| <= |s| && from <= to <= |s|
    requires to <= at || at + |part| <= from
    ensures Spliced(s, at, part)[from..to] == s[from..to]
  {
  }
}
