/** Whole-string replacement as Rust's `str::replace` performs it, with the
    laws the preprocessor relies on. */
module Strings {

  /** `pat` occurs in `s` starting at index `i`. */
  predicate OccursAt(pat: string, s: string, i: nat)
  {
    i <= |s| - |pat| && s[i..i + |pat|] == pat
  }

  /** `pat` occurs somewhere in `s`. */
  predicate Occurs(pat: string, s: string)
  {
    exists i: nat | i <= |s| :: OccursAt(pat, s, i)
  }

  /** `s.replace(pat, rep)`: scan left to right; at each position where `pat`
      starts, emit `rep` and resume after the match; otherwise emit the
      current character and move on one. Matches therefore never overlap.
      The pattern is never empty at any call site of this model. */
  function ReplaceAll(s: string, pat: string, rep: string): (r: string)
    requires |pat| > 0
    ensures |rep| <= |pat| ==> |r| <= |s|
    ensures |rep| >= |pat| ==> |r| >= |s|
    ensures |rep| == |pat| ==> |r| == |s|
    decreases |s|
  {
    if |s| < |pat| then s
    else if s[..|pat|] == pat then rep + ReplaceAll(s[|pat|..], pat, rep)
    else [s[0]] + ReplaceAll(s[1..], pat, rep)
  }

  /** Reference definition for a one-character pattern: every `c` becomes
      `rep`, every other character stays. */
  function ExpandChar(s: string, c: char, rep: string): (r: string)
    ensures c !in rep ==> c !in r
  {
    if s == [] then []
    else (if s[0] == c then rep else [s[0]]) + ExpandChar(s[1..], c, rep)
  }

  /** Number of occurrences of the character `c` in `s`. */
  function CountChar(s: string, c: char): (n: nat)
    ensures n <= |s|
    ensures n == 0 <==> c !in s
  {
    if s == [] then 0 else (if s[0] == c then 1 else 0) + CountChar(s[1..], c)
  }

  /** `" ".repeat(n)`. */
  function Spaces(n: nat): (r: string)
    ensures |r| == n
    ensures forall i :: 0 <= i < |r| ==> r[i] == ' '
  {
    if n == 0 then [] else [' '] + Spaces(n - 1)
  }

  /** An occurrence inside the tail is an occurrence in the whole string. */
  lemma OccursInTail(pat: string, s: string, k: nat)
    requires k <= |s| && Occurs(pat, s[k..])
    ensures Occurs(pat, s)
  {
    var t := s[k..];
    var i: nat :| i <= |t| && OccursAt(pat, t, i);
    assert t[i..i + |pat|] == s[i + k..i + k + |pat|];
    assert OccursAt(pat, s, i + k);
  }

  /** A string that does not contain the pattern is left unchanged. */
  lemma {:induction false} ReplaceAllNoMatch(s: string, pat: string, rep: string)
    requires |pat| > 0
    requires !Occurs(pat, s)
    ensures ReplaceAll(s, pat, rep) == s
    decreases |s|
  {
    if |s| >= |pat| {
      assert !OccursAt(pat, s, 0);
      assert s[0..|pat|] == s[..|pat|];
      if Occurs(pat, s[1..]) {
        OccursInTail(pat, s, 1);
      }
      ReplaceAllNoMatch(s[1..], pat, rep);
      assert s == [s[0]] + s[1..];
    }
  }

  /** For a one-character pattern the scan is the per-character reference
      definition: each occurrence of `c` becomes exactly `rep`. */
  lemma {:induction false} ReplaceCharIsExpand(s: string, c: char, rep: string)
    ensures ReplaceAll(s, [c], rep) == ExpandChar(s, c, rep)
    decreases |s|
  {
    if s != [] {
      ReplaceCharIsExpand(s[1..], c, rep);
      assert s[..1] == [s[0]];
    }
  }

  /** After a one-character pattern is replaced by text that does not
      contain it, no occurrence of that character is left. */
  lemma ReplaceCharRemovesIt(s: string, c: char, rep: string)
    requires c !in rep
    ensures c !in ReplaceAll(s, [c], rep)
  {
    ReplaceCharIsExpand(s, c, rep);
  }

  /** Each occurrence of `c` changes the length by `|rep| - 1`. */
  lemma {:induction false} ExpandCharLength(s: string, c: char, rep: string)
    ensures |ExpandChar(s, c, rep)| == |s| + (|rep| - 1) * CountChar(s, c)
    decreases |s|
  {
    if s != [] {
      ExpandCharLength(s[1..], c, rep);
      var d, n := |rep| - 1, CountChar(s[1..], c);
      if s[0] == c {
        assert CountChar(s, c) == 1 + n;
        assert d * (1 + n) == d + d * n;
      } else {
        assert CountChar(s, c) == n;
      }
    }
  }

  /** A non-empty pattern can only occur where its first character does. */
  lemma OccursHead(pat: string, s: string)
    requires |pat| > 0 && Occurs(pat, s)
    ensures pat[0] in s
  {
    var i: nat :| i <= |s| && OccursAt(pat, s, i);
    assert s[i] == s[i..i + |pat|][0];
  }
}
