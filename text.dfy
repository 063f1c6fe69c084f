/**
 * String helpers shared by the modules: `indexOf`, suffix tests and the
 * meaning of the anchored alternation regexes `/\.(a|b|...)$/` used as
 * extension filters.
 */
module Text {

  /** `s.indexOf(c)`: the first position of `c` in `s`, or -1. */
  function IndexOf(s: string, c: char): (r: int)
    ensures -1 <= r < |s|
    ensures r == -1 <==> c !in s
    ensures r >= 0 ==> s[r] == c && c !in s[..r]
  {
    if s == [] then -1
    else if s[0] == c then 0
    else
      var k := IndexOf(s[1..], c);
      assert k >= 0 ==> s[..k + 1] == [s[0]] + s[1..][..k];
      if k == -1 then -1 else k + 1
  }

  /** The last position of `c` in `s`, or -1. */
  function LastIndexOf(s: string, c: char): (r: int)
    ensures -1 <= r < |s|
    ensures r == -1 <==> c !in s
    ensures r >= 0 ==> s[r] == c && c !in s[r + 1..]
  {
    if s == [] then -1
    else if s[|s| - 1] == c then |s| - 1
    else
      var init := s[..|s| - 1];
      var k := LastIndexOf(init, c);
      assert s == init + [s[|s| - 1]];
      assert k >= 0 ==> s[k + 1..] == init[k + 1..] + [s[|s| - 1]];
      k
  }

  predicate EndsWith(s: string, suffix: string)
  {
    |suffix| <= |s| && s[|s| - |suffix|..] == suffix
  }

  /**
   * The regex `/\.(a1|a2|...)$/` tested against `s` (no flags, so `$` is the
   * end of the input): some position holds a `.` followed by one of the
   * alternatives up to the end. Case-sensitive.
   */
  predicate DotAltAtEnd(s: string, alts: seq<string>)
  {
    exists i :: 0 <= i < |s| && s[i] == '.' && s[i + 1..] in alts
  }

  /** The regex holds exactly when `s` ends in `.` followed by an alternative. */
  lemma DotAltAtEndIsSuffix(s: string, alts: seq<string>)
    ensures DotAltAtEnd(s, alts) <==> exists a :: a in alts && EndsWith(s, "." + a)
  {
    if DotAltAtEnd(s, alts) {
      var i :| 0 <= i < |s| && s[i] == '.' && s[i + 1..] in alts;
      var a := s[i + 1..];
      assert s[|s| - |"." + a|..] == "." + a;
      assert EndsWith(s, "." + a);
    }
    if exists a :: a in alts && EndsWith(s, "." + a) {
      var a :| a in alts && EndsWith(s, "." + a);
      var i := |s| - |a| - 1;
      assert s[i] == ("." + a)[0];
      assert s[i + 1..] == a;
    }
  }

  /** `t` occurs in `s` starting at position `k`. */
  predicate OccursAt(s: string, t: string, k: nat)
  {
    k + |t| <= |s| && s[k..k + |t|] == t
  }

  /** `s.includes(t)`. */
  predicate Contains(s: string, t: string)
  {
    exists k :: 0 <= k <= |s| && OccursAt(s, t, k)
  }

  /** A non-empty slice is its first element followed by the rest. */
  lemma SliceCons(s: string, i: nat, j: nat)
    requires i < j <= |s|
    ensures s[i..j] == [s[i]] + s[i + 1..j]
  {
  }

  /** The middle part of a concatenation is the slice at its offset. */
  lemma SliceOfConcat(p: string, d: string, t: string)
    ensures (p + d + t)[|p|..|p| + |d|] == d
    ensures (p + d + t)[..|p|] == p
  {
    assert (p + d + t)[..|p|] == p;
  }

  /** Regrouping a dotted pair, as the version parser reads it. */
  lemma DottedRegroup(a: string, b: string, rest: string)
    ensures a + "." + b + rest == [] + a + ("." + b + rest)
  {
    assert a + "." + b + rest == a + ("." + b + rest);
  }

  /** A position holding `c` with no `c` after it is the last one. */
  lemma LastIndexOfIs(s: string, c: char, m: nat)
    requires m < |s| && s[m] == c
    requires forall j :: m < j < |s| ==> s[j] != c
    ensures LastIndexOf(s, c) == m
  {
  }

  /** Appending text without `c` does not move the last `c`. */
  lemma {:induction false} LastIndexOfAppend(s: string, t: string, c: char)
    requires c !in t
    ensures LastIndexOf(s + t, c) == LastIndexOf(s, c)
    decreases |t|
  {
    if t == [] {
      assert s + t == s;
    } else {
      var init := t[..|t| - 1];
      assert (s + t)[..|s + t| - 1] == s + init;
      assert (s + t)[|s + t| - 1] == t[|t| - 1];
      LastIndexOfAppend(s, init, c);
    }
  }

  /** A suffix slice of a concatenation that starts inside the left part. */
  lemma SliceOfAppend(s: string, t: string, i: nat)
    requires i <= |s|
    ensures (s + t)[i..] == s[i..] + t
  {
  }

  /** The last `.` of `u + "." + a`, when `a` has none, is the one after `u`. */
  lemma LastDotOfDotted(u: string, a: string)
    requires '.' !in a
    ensures LastIndexOf(u + ("." + a), '.') == |u|
    ensures (u + ("." + a))[|u|..] == "." + a
  {
    assert u + ("." + a) == (u + ".") + a;
    LastIndexOfAppend(u + ".", a, '.');
  }

  /** A string splits around any of its dots. */
  lemma SplitAtDot(s: string, d: nat)
    requires d < |s| && s[d] == '.'
    ensures s == s[..d] + "." + s[d + 1..]
    ensures s[d..] == "." + s[d + 1..]
  {
    assert s == s[..d] + s[d..];
  }
}
