/**
 * Character classes, scanning helpers and the left-to-right replacement that
 * the comment patterns, the renderer and the file preprocessing share.
 * Characters stand for the bytes the regex engine sees: every position the
 * patterns report lies next to an ASCII character or at an end, so counting
 * in characters or in bytes gives the same captures.
 */
module Text {

  /** `[ \t]` */
  predicate IsBlank(c: char) {
    c == ' ' || c == '\t'
  }

  /** `\w` without Unicode properties: ASCII letters, digits and `_`. */
  predicate IsWordChar(c: char) {
    ('a' <= c <= 'z') || ('A' <= c <= 'Z') || ('0' <= c <= '9') || c == '_'
  }

  /** End of the longest run of spaces and tabs starting at `i` (a greedy `[ \t]*`). */
  function SkipBlank(s: string, i: nat): (j: nat)
    requires i <= |s|
    ensures i <= j <= |s|
    ensures forall k :: i <= k < j ==> IsBlank(s[k])
    ensures j < |s| ==> !IsBlank(s[j])
    decreases |s| - i
  {
    if i < |s| && IsBlank(s[i]) then SkipBlank(s, i + 1) else i
  }

  /** End of the longest run of word characters starting at `i` (a greedy `\w*`). */
  function WordEnd(s: string, i: nat): (j: nat)
    requires i <= |s|
    ensures i <= j <= |s|
    ensures forall k :: i <= k < j ==> IsWordChar(s[k])
    ensures j < |s| ==> !IsWordChar(s[j])
    decreases |s| - i
  {
    if i < |s| && IsWordChar(s[i]) then WordEnd(s, i + 1) else i
  }

  /** Where a greedy `.*` starting at `i` stops: at the first newline, or at the end. */
  function LineEnd(s: string, i: nat): (j: nat)
    requires i <= |s|
    ensures i <= j <= |s|
    ensures forall k :: i <= k < j ==> s[k] != '\n'
    ensures j < |s| ==> s[j] == '\n'
    decreases |s| - i
  {
    if i < |s| && s[i] != '\n' then LineEnd(s, i + 1) else i
  }

  /** `$` outside multi-line mode: at the end of the subject or just before a final newline. */
  predicate AtEnd(s: string, j: nat) {
    j == |s| || (j + 1 == |s| && s[j] == '\n')
  }

  predicate StartsAt(s: string, i: nat, p: string) {
    i + |p| <= |s| && s[i..i + |p|] == p
  }

  /** A text cannot start with `p` where its character differs from `p`'s first. */
  lemma NotStartsAt(s: string, i: nat, p: string)
    requires |p| > 0 && (i >= |s| || s[i] != p[0])
    ensures !StartsAt(s, i, p)
  {
    if i + |p| <= |s| {
      assert s[i..i + |p|][0] == s[i];
    }
  }

  predicate StartsWith(s: string, p: string) {
    |p| <= |s| && s[..|p|] == p
  }

  predicate EndsWith(s: string, p: string) {
    |p| <= |s| && s[|s| - |p|..] == p
  }

  /** Dropping the last element of a concatenation drops it from the second part. */
  lemma AppendInit<T>(xs: seq<T>, ys: seq<T>)
    requires ys != []
    ensures (xs + ys)[..|xs + ys| - 1] == xs + ys[..|ys| - 1]
    ensures (xs + ys)[|xs + ys| - 1] == ys[|ys| - 1]
  {
  }

  /** Extending a prefix by one element. */
  lemma TakeSnoc<T>(s: seq<T>, j: nat)
    requires j < |s|
    ensures s[..j + 1] == s[..j] + [s[j]]
    ensures s[..j + 1][..j] == s[..j]
  {
  }

  lemma AppendAssoc<T>(a: seq<T>, b: seq<T>, c: seq<T>)
    ensures a + b + c == a + (b + c)
  {
  }

  lemma AppendEmpty<T>(a: seq<T>)
    ensures a + [] == a
  {
  }

  /**
   * Every occurrence of `pat` replaced by `rep`, occurrences found left to
   * right without overlapping: the contract of Rust's `str::replace` for a
   * non-empty pattern.
   */
  function ReplaceAll(s: string, pat: string, rep: string): string
    requires |pat| > 0
    decreases |s|
  {
    if |s| < |pat| then s
    else if s[..|pat|] == pat then rep + ReplaceAll(s[|pat|..], pat, rep)
    else [s[0]] + ReplaceAll(s[1..], pat, rep)
  }

  /**
   * The first occurrence of `pat` is replaced, and the scan resumes right
   * after it: neither the replacement nor the text around it is looked at
   * again, only what follows.
   */
  lemma {:induction false} ReplaceAllSplit(pre: string, pat: string, post: string, rep: string)
    requires |pat| > 0
    requires forall i :: 0 <= i < |pre| ==> !StartsAt(pre + pat + post, i, pat)
    ensures ReplaceAll(pre + pat + post, pat, rep) == pre + rep + ReplaceAll(post, pat, rep)
    decreases |pre|
  {
    var s := pre + pat + post;
    if pre == [] {
      assert s == pat + post;
      assert s[..|pat|] == pat && s[|pat|..] == post;
    } else {
      assert !StartsAt(s, 0, pat);
      var t := pre[1..] + pat + post;
      assert s[1..] == t;
      forall i | 0 <= i < |pre[1..]|
        ensures !StartsAt(t, i, pat)
      {
        assert !StartsAt(s, i + 1, pat);
        if i + |pat| <= |t| {
          assert t[i..i + |pat|] == s[i + 1..i + 1 + |pat|];
        }
      }
      ReplaceAllSplit(pre[1..], pat, post, rep);
      assert [s[0]] + (pre[1..] + rep + ReplaceAll(post, pat, rep)) == pre + rep + ReplaceAll(post, pat, rep);
    }
  }

  /** A character that is in neither the text nor the replacement is not in the result. */
  lemma {:induction false} ReplaceAllKeepsOut(s: string, pat: string, rep: string, c: char)
    requires |pat| > 0 && c !in s && c !in rep
    ensures c !in ReplaceAll(s, pat, rep)
    decreases |s|
  {
    if |s| < |pat| {
    } else if s[..|pat|] == pat {
      ReplaceAllKeepsOut(s[|pat|..], pat, rep, c);
    } else {
      ReplaceAllKeepsOut(s[1..], pat, rep, c);
    }
  }

  /** Replacing a one-character pattern by text without it removes that character entirely. */
  lemma {:induction false} ReplaceAllRemovesChar(s: string, c: char, rep: string)
    requires c !in rep
    ensures c !in ReplaceAll(s, [c], rep)
    decreases |s|
  {
    if |s| < 1 {
    } else if s[..1] == [c] {
      ReplaceAllRemovesChar(s[1..], c, rep);
    } else {
      assert s[0] != c by { assert s[..1][0] == s[0]; }
      ReplaceAllRemovesChar(s[1..], c, rep);
    }
  }

  /** Text in which the pattern never starts is returned unchanged. */
  lemma {:induction false} ReplaceAllAbsent(s: string, pat: string, rep: string)
    requires |pat| > 0
    requires forall i: nat :: !StartsAt(s, i, pat)
    ensures ReplaceAll(s, pat, rep) == s
    decreases |s|
  {
    if |s| < |pat| {
    } else {
      assert !StartsAt(s, 0, pat);
      forall i: nat
        ensures !StartsAt(s[1..], i, pat)
      {
        assert !StartsAt(s, i + 1, pat);
        if i + |pat| <= |s[1..]| {
          assert s[1..][i..i + |pat|] == s[i + 1..i + 1 + |pat|];
        }
      }
      ReplaceAllAbsent(s[1..], pat, rep);
      assert [s[0]] + s[1..] == s;
    }
  }

  /** Deleting occurrences never lengthens the text. */
  lemma {:induction false} ReplaceAllByEmptyShrinks(s: string, pat: string)
    requires |pat| > 0
    ensures |ReplaceAll(s, pat, "")| <= |s|
    decreases |s|
  {
    if |s| < |pat| {
    } else if s[..|pat|] == pat {
      ReplaceAllByEmptyShrinks(s[|pat|..], pat);
    } else {
      ReplaceAllByEmptyShrinks(s[1..], pat);
    }
  }
}
