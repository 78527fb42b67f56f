/** The few Go `strings` operations the core relies on, over `seq<char>`. */
module Strs {

  /** `strings.HasPrefix(s, t)`. */
  predicate HasPrefix(s: string, t: string)
  {
    |t| <= |s| && s[..|t|] == t
  }

  /** `strings.Contains(s, t)`. */
  predicate Contains(s: string, t: string)
    decreases |s|
  {
    HasPrefix(s, t) || (|s| > 0 && Contains(s[1..], t))
  }

  /** `strings.Replace(s, tag, "", -1)`: removes every non-overlapping occurrence of `tag`, scanning left to right. */
  function RemoveAll(s: string, tag: string): (r: string)
    ensures |r| <= |s|
    decreases |s|
  {
    if |tag| == 0 || |s| == 0 then s
    else if HasPrefix(s, tag) then RemoveAll(s[|tag|..], tag)
    else [s[0]] + RemoveAll(s[1..], tag)
  }

  lemma {:induction false} RemoveAllNoOccurrence(s: string, tag: string)
    requires !Contains(s, tag)
    ensures RemoveAll(s, tag) == s
    decreases |s|
  {
    if |tag| != 0 && |s| != 0 {
      RemoveAllNoOccurrence(s[1..], tag);
      assert s == [s[0]] + s[1..];
    }
  }

  /** Stripping the tag from a tagged name gives the name back, when the name does not itself contain the tag. */
  lemma RemoveTagPrefix(tag: string, name: string)
    requires |tag| > 0 && !Contains(name, tag)
    ensures RemoveAll(tag + name, tag) == name
  {
    assert HasPrefix(tag + name, tag);
    assert (tag + name)[|tag|..] == name;
    RemoveAllNoOccurrence(name, tag);
  }

  /** `strings.Split(s, string(sep))`: one more part than there are separators. */
  function SplitOn(s: string, sep: char): (parts: seq<string>)
    ensures |parts| >= 1
    ensures |parts| == Occurrences(s, sep) + 1
    decreases |s|
  {
    if s == [] then [""]
    else if s[0] == sep then [""] + SplitOn(s[1..], sep)
    else
      var rest := SplitOn(s[1..], sep);
      [[s[0]] + rest[0]] + rest[1..]
  }

  function Occurrences(s: string, c: char): nat
    decreases |s|
  {
    if s == [] then 0 else (if s[0] == c then 1 else 0) + Occurrences(s[1..], c)
  }

  lemma {:induction false} SplitJoined(a: string, b: string, sep: char)
    requires Occurrences(a, sep) == 0
    ensures SplitOn(a + [sep] + b, sep) == [a] + SplitOn(b, sep)
    decreases |a|
  {
    if a == [] {
      assert a + [sep] + b == [sep] + b;
      assert ([sep] + b)[1..] == b;
    } else {
      assert (a + [sep] + b)[1..] == a[1..] + [sep] + b;
      SplitJoined(a[1..], b, sep);
      assert [a[0]] + a[1..] == a;
    }
  }

  lemma {:induction false} SplitNoSeparator(a: string, sep: char)
    requires Occurrences(a, sep) == 0
    ensures SplitOn(a, sep) == [a]
    decreases |a|
  {
    if a != [] {
      SplitNoSeparator(a[1..], sep);
      assert [a[0]] + a[1..] == a;
    }
  }

  /** The split of `prev + "#" + next` gives `prev` and `next` back when neither contains the separator. */
  lemma SplitPair(prev: string, next: string, sep: char)
    requires Occurrences(prev, sep) == 0 && Occurrences(next, sep) == 0
    ensures SplitOn(prev + [sep] + next, sep) == [prev, next]
  {
    SplitJoined(prev, next, sep);
    SplitNoSeparator(next, sep);
  }

  /** No part of a split holds the separator. */
  lemma {:induction false} SplitPartsClean(s: string, sep: char)
    ensures forall k :: 0 <= k < |SplitOn(s, sep)| ==> Occurrences(SplitOn(s, sep)[k], sep) == 0
    decreases |s|
  {
    if s != [] {
      SplitPartsClean(s[1..], sep);
      if s[0] != sep {
        var rest := SplitOn(s[1..], sep);
        var head := [s[0]] + rest[0];
        assert head[1..] == rest[0];
        assert Occurrences(head, sep) == Occurrences(rest[0], sep);
        var parts := SplitOn(s, sep);
        forall k | 0 <= k < |parts| ensures Occurrences(parts[k], sep) == 0 {
          if k > 0 {
            assert parts[k] == rest[k];
          }
        }
      }
    }
  }

  /**
   * ASCII lower-casing, for `strings.EqualFold` on the level names. Go folds Unicode simple case
   * pairs as well; the level names fil.go compares against ("PSM", "Peptide", "Ion") are ASCII.
   */
  function LowerAscii(s: string): (r: string)
    ensures |r| == |s|
  {
    seq(|s|, i requires 0 <= i < |s| => if 'A' <= s[i] <= 'Z' then (s[i] as int + 32) as char else s[i])
  }

  predicate EqualFold(a: string, b: string)
  {
    LowerAscii(a) == LowerAscii(b)
  }
}
