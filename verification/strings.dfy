/**
 * The string operations of the .NET base library that the dispatch layer relies on,
 * with ordinal (culture-independent) comparison:
 * StringBuilder.Replace / String.Replace, String.Join and String.IndexOf(char).
 */
module Strings {

  /** True when `pattern` occurs somewhere in `s`. */
  predicate Occurs(pattern: string, s: string)
    decreases |s|
  {
    |pattern| <= |s| && (s[..|pattern|] == pattern || Occurs(pattern, s[1..]))
  }

  /**
   * Replaces every occurrence of the non-empty `pattern` in `s` by `replacement`;
   * occurrences are found from left to right and never overlap.
   */
  function Replace(s: string, pattern: string, replacement: string): string
    requires |pattern| > 0
    decreases |s|
  {
    if |s| < |pattern| then s
    else if s[..|pattern|] == pattern then replacement + Replace(s[|pattern|..], pattern, replacement)
    else [s[0]] + Replace(s[1..], pattern, replacement)
  }

  /** Replacing a one-character pattern by text without that character removes it entirely. */
  lemma {:induction false} ReplaceRemovesChar(s: string, c: char, replacement: string)
    requires c !in replacement
    ensures c !in Replace(s, [c], replacement)
    decreases |s|
  {
    if |s| >= 1 {
      ReplaceRemovesChar(s[1..], c, replacement);
    }
  }

  /** Replacement never introduces a character that is neither in `s` nor in `replacement`. */
  lemma {:induction false} ReplaceKeepsCharAbsent(s: string, pattern: string, replacement: string, c: char)
    requires |pattern| > 0 && c !in s && c !in replacement
    ensures c !in Replace(s, pattern, replacement)
    decreases |s|
  {
    if |s| >= |pattern| {
      if s[..|pattern|] == pattern {
        ReplaceKeepsCharAbsent(s[|pattern|..], pattern, replacement, c);
      } else {
        ReplaceKeepsCharAbsent(s[1..], pattern, replacement, c);
      }
    }
  }

  /** A string in which the pattern does not occur is left as it is. */
  lemma {:induction false} ReplaceWithoutOccurrence(s: string, pattern: string, replacement: string)
    requires |pattern| > 0 && !Occurs(pattern, s)
    ensures Replace(s, pattern, replacement) == s
    decreases |s|
  {
    if |s| >= |pattern| {
      ReplaceWithoutOccurrence(s[1..], pattern, replacement);
      assert [s[0]] + s[1..] == s;
    }
  }

  /** `xs` joined with `separator` between consecutive elements. */
  function Join(separator: string, xs: seq<string>): string
  {
    if |xs| == 0 then ""
    else if |xs| == 1 then xs[0]
    else xs[0] + separator + Join(separator, xs[1..])
  }

  /** Where the k-th element starts inside Join(separator, xs). */
  function JoinOffset(separator: string, xs: seq<string>, k: nat): nat
    requires k <= |xs|
  {
    if k == 0 then 0 else JoinOffset(separator, xs, k - 1) + |xs[k - 1]| + |separator|
  }

  /** `t` is written in `s` starting at position `o`. */
  predicate WrittenAt(s: string, o: nat, t: string)
  {
    o + |t| <= |s| && s[o..o + |t|] == t
  }

  /**
   * The joined string holds the elements in their given order, each followed by exactly
   * one separator except the last.
   */
  lemma JoinPlacement(separator: string, xs: seq<string>, k: nat)
    requires k < |xs|
    ensures WrittenAt(Join(separator, xs), JoinOffset(separator, xs, k), xs[k])
    ensures k + 1 < |xs| ==> WrittenAt(Join(separator, xs), JoinOffset(separator, xs, k) + |xs[k]|, separator)
    ensures k + 1 == |xs| ==> JoinOffset(separator, xs, k) + |xs[k]| == |Join(separator, xs)|
  {
    JoinElement(separator, xs, k);
    if k + 1 < |xs| {
      JoinSeparator(separator, xs, k);
    } else {
      JoinEnd(separator, xs);
    }
  }

  /** The same placement, read through a prefix written before the join. */
  lemma PrefixedJoinPlacement(prefix: string, separator: string, xs: seq<string>, k: nat)
    requires k < |xs|
    ensures WrittenAt(prefix + Join(separator, xs), |prefix| + JoinOffset(separator, xs, k), xs[k])
    ensures k + 1 < |xs| ==>
      WrittenAt(prefix + Join(separator, xs), |prefix| + JoinOffset(separator, xs, k) + |xs[k]|, separator)
  {
    var j := Join(separator, xs);
    var o := JoinOffset(separator, xs, k);
    JoinElement(separator, xs, k);
    SliceOfSuffix(prefix, j, o, o + |xs[k]|);
    if k + 1 < |xs| {
      JoinSeparator(separator, xs, k);
      SliceOfSuffix(prefix, j, o + |xs[k]|, o + |xs[k]| + |separator|);
    }
  }

  /** The k-th element sits at its offset inside the join. */
  lemma {:induction false} JoinElement(separator: string, xs: seq<string>, k: nat)
    requires k < |xs|
    ensures WrittenAt(Join(separator, xs), JoinOffset(separator, xs, k), xs[k])
    decreases k
  {
    if |xs| > 1 {
      var head := xs[0] + separator;
      var rest := Join(separator, xs[1..]);
      assert Join(separator, xs) == head + rest;
      if k > 0 {
        JoinElement(separator, xs[1..], k - 1);
        JoinOffsetShift(separator, xs, k);
        var o' := JoinOffset(separator, xs[1..], k - 1);
        SliceOfSuffix(head, rest, o', o' + |xs[k]|);
      } else {
        assert (head + rest)[..|xs[0]|] == xs[0];
      }
    }
  }

  /** Every element but the last is followed by one separator. */
  lemma {:induction false} JoinSeparator(separator: string, xs: seq<string>, k: nat)
    requires k + 1 < |xs|
    ensures WrittenAt(Join(separator, xs), JoinOffset(separator, xs, k) + |xs[k]|, separator)
    decreases k
  {
    var head := xs[0] + separator;
    var rest := Join(separator, xs[1..]);
    assert Join(separator, xs) == head + rest;
    if k > 0 {
      JoinSeparator(separator, xs[1..], k - 1);
      JoinOffsetShift(separator, xs, k);
      var o' := JoinOffset(separator, xs[1..], k - 1) + |xs[k]|;
      SliceOfSuffix(head, rest, o', o' + |separator|);
    } else {
      assert (head + rest)[|xs[0]|..|xs[0]| + |separator|] == separator;
    }
  }

  /** The last element ends the join. */
  lemma {:induction false} JoinEnd(separator: string, xs: seq<string>)
    requires |xs| > 0
    ensures JoinOffset(separator, xs, |xs| - 1) + |xs[|xs| - 1]| == |Join(separator, xs)|
    decreases |xs|
  {
    if |xs| > 1 {
      JoinEnd(separator, xs[1..]);
      JoinOffsetShift(separator, xs, |xs| - 1);
    }
  }

  lemma {:induction false} JoinOffsetShift(separator: string, xs: seq<string>, k: nat)
    requires 0 < k <= |xs|
    ensures JoinOffset(separator, xs, k) == |xs[0]| + |separator| + JoinOffset(separator, xs[1..], k - 1)
    decreases k
  {
    if k > 1 {
      JoinOffsetShift(separator, xs, k - 1);
    }
  }

  /** A character absent from every element and from the separator is absent from the join. */
  lemma {:induction false} JoinKeepsCharAbsent(separator: string, xs: seq<string>, c: char)
    requires c !in separator
    requires forall k :: 0 <= k < |xs| ==> c !in xs[k]
    ensures c !in Join(separator, xs)
    decreases |xs|
  {
    if |xs| > 1 {
      JoinKeepsCharAbsent(separator, xs[1..], c);
    }
  }

  /** A slice of the right part of a concatenation, read through the whole. */
  lemma SliceOfSuffix(a: string, b: string, i: nat, j: nat)
    requires i <= j <= |b|
    ensures (a + b)[|a| + i..|a| + j] == b[i..j]
  {
  }

  /** String.IndexOf(char): the first position of `c`, or -1 when `c` does not occur. */
  function IndexOf(s: string, c: char): (r: int)
    ensures -1 <= r < |s|
    ensures r == -1 <==> c !in s
    ensures r >= 0 ==> s[r] == c && c !in s[..r]
    decreases |s|
  {
    if |s| == 0 then -1
    else if s[0] == c then 0
    else
      var rest := IndexOf(s[1..], c);
      assert s[1..] + [] == s[1..];
      if rest == -1 then -1
      else
        assert s[..rest + 1] == [s[0]] + s[1..][..rest];
        rest + 1
  }
}
