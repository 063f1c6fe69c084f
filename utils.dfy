/**
 * src/utils.ts: the `[major, minor]` parse of `process.versions.node`, the
 * version gate, and `removeNodePrefix`, which rewrites
 * `(require("node:NAME"))` into `(require("NAME"))` on old runtimes.
 *
 * The version string is the parameter `versionsNode`.
 */
module Utils {
  import opened Wrappers
  import opened Text

  /** U+0008: `\b` inside a regex character class is a backspace. */
  const Backspace: char := '\U{0008}'

  /** The literal `require("node:` the pattern needs after its first character. */
  const Literal: string := "require(\"node:"

  predicate IsDigit(c: char) { '0' <= c <= '9' }

  predicate AllDigits(s: string) { forall k :: 0 <= k < |s| ==> IsDigit(s[k]) }

  /** The length of the longest run of digits starting at `i` (`\d+` is greedy). */
  function DigitRun(s: string, i: nat): (n: nat)
    requires i <= |s|
    ensures i + n <= |s|
    decreases |s| - i
  {
    if i < |s| && IsDigit(s[i]) then 1 + DigitRun(s, i + 1) else 0
  }

  /** The run found is all digits. */
  lemma {:induction false} DigitRunIsDigits(s: string, i: nat)
    requires i <= |s|
    ensures AllDigits(s[i..i + DigitRun(s, i)])
    decreases |s| - i
  {
    if i < |s| && IsDigit(s[i]) {
      DigitRunIsDigits(s, i + 1);
      assert s[i..i + DigitRun(s, i)] == [s[i]] + s[i + 1..i + 1 + DigitRun(s, i + 1)];
    }
  }

  /** The run stops at the end of the text or at a non-digit. */
  lemma {:induction false} DigitRunStops(s: string, i: nat)
    requires i <= |s|
    ensures i + DigitRun(s, i) == |s| || !IsDigit(s[i + DigitRun(s, i)])
    decreases |s| - i
  {
    if i < |s| && IsDigit(s[i]) {
      DigitRunStops(s, i + 1);
    }
  }

  /** `Number(s)` of a string of decimal digits. */
  function DecimalValue(s: string): nat
    requires AllDigits(s)
  {
    if s == [] then 0 else DecimalValue(s[..|s| - 1]) * 10 + (s[|s| - 1] as int - '0' as int)
  }

  /** The digits of `n` in base ten, the partner of `DecimalValue`. */
  function Decimal(n: nat): (s: string)
    ensures |s| > 0 && AllDigits(s)
  {
    var d := ['0' + (n % 10) as char];
    if n < 10 then d else Decimal(n / 10) + d
  }

  lemma {:induction false} DecimalValueOfDecimal(n: nat)
    ensures DecimalValue(Decimal(n)) == n
  {
    var s := Decimal(n);
    assert s[..|s| - 1] == (if n < 10 then [] else Decimal(n / 10));
    if n >= 10 {
      DecimalValueOfDecimal(n / 10);
    }
  }

  /**
   * `s` starts with the digits `major`, a `.`, and the digits `minor`, and
   * no digit follows: the match `/^(\d+)\.(\d+)/` with both runs maximal.
   */
  predicate StartsWithVersion(s: string, major: string, minor: string)
  {
    var n := |major| + 1 + |minor|;
    && major != [] && AllDigits(major) && minor != [] && AllDigits(minor)
    && n <= |s| && s[..n] == major + "." + minor
    && (n == |s| || !IsDigit(s[n]))
  }

  /** The texts of the two captures of `/^(\d+)\.(\d+)/`, or None without a match. */
  function VersionCaptures(versionsNode: string): (r: Option<(string, string)>)
    ensures r.Some? ==> StartsWithVersion(versionsNode, r.value.0, r.value.1)
  {
    var n1 := DigitRun(versionsNode, 0);
    if n1 == 0 || n1 == |versionsNode| || versionsNode[n1] != '.' then None
    else
      var n2 := DigitRun(versionsNode, n1 + 1);
      if n2 == 0 then None
      else
        DigitRunIsDigits(versionsNode, 0);
        DigitRunIsDigits(versionsNode, n1 + 1);
        DigitRunStops(versionsNode, n1 + 1);
        assert versionsNode[..n1] == versionsNode[0..n1];
        var major := versionsNode[..n1];
        var minor := versionsNode[n1 + 1..n1 + 1 + n2];
        assert versionsNode[..n1 + 1 + n2] == major + "." + minor;
        Some((major, minor))
  }

  /**
   * `(versions.node.match(/^(\d+)\.(\d+)/) || []).slice(1).map(Number)`:
   * the two leading dot-separated numbers, or the empty list without a match.
   */
  function NodeVersion(versionsNode: string): (v: seq<nat>)
    ensures |v| == 0 || |v| == 2
  {
    match VersionCaptures(versionsNode)
    case None => []
    case Some((major, minor)) => [DecimalValue(major), DecimalValue(minor)]
  }

  /** Digits placed after `p` and before a non-digit form exactly the run found at `|p|`. */
  lemma {:induction false} DigitRunOfConcat(p: string, d: string, t: string)
    requires AllDigits(d) && (t == [] || !IsDigit(t[0]))
    ensures DigitRun(p + d + t, |p|) == |d|
    decreases |d|
  {
    var s := p + d + t;
    if d == [] {
      assert t != [] ==> s[|p|] == t[0];
    } else {
      assert s[|p|] == d[0];
      assert s == (p + [d[0]]) + d[1..] + t;
      DigitRunOfConcat(p + [d[0]], d[1..], t);
    }
  }

  /** The captures of `major.minor` followed by a non-digit are `major` and `minor`. */
  lemma VersionCapturesOfParts(a: string, b: string, rest: string)
    requires a != [] && AllDigits(a) && b != [] && AllDigits(b)
    requires rest == [] || !IsDigit(rest[0])
    ensures VersionCaptures(a + "." + b + rest) == Some((a, b))
  {
    var s := a + "." + b + rest;
    var t := "." + b + rest;
    DottedRegroup(a, b, rest);
    DigitRunOfConcat([], a, t);
    DigitRunOfConcat(a + ".", b, rest);
    assert s[|a|] == '.';
    SliceOfConcat([], a, t);
    SliceOfConcat(a + ".", b, rest);
  }

  /** The captures are `major` and `minor` exactly when the text starts with `major.minor` and no further digit. */
  lemma VersionCapturesIff(s: string, major: string, minor: string)
    ensures VersionCaptures(s) == Some((major, minor)) <==> StartsWithVersion(s, major, minor)
  {
    if StartsWithVersion(s, major, minor) {
      var n := |major| + 1 + |minor|;
      assert s == s[..n] + s[n..];
      VersionCapturesOfParts(major, minor, s[n..]);
    }
  }

  /** The parse gives the empty list exactly when the text starts with no `major.minor`. */
  lemma NodeVersionEmptyIff(s: string)
    ensures NodeVersion(s) == [] <==> forall major, minor :: !StartsWithVersion(s, major, minor)
  {
    if NodeVersion(s) == [] {
      forall major, minor
        ensures !StartsWithVersion(s, major, minor)
      {
        VersionCapturesIff(s, major, minor);
      }
    }
  }

  /** A version string `major.minor...` parses back to `[major, minor]`. */
  lemma NodeVersionOfDecimal(major: nat, minor: nat, rest: string)
    requires rest == [] || !IsDigit(rest[0])
    ensures NodeVersion(Decimal(major) + "." + Decimal(minor) + rest) == [major, minor]
  {
    VersionCapturesOfParts(Decimal(major), Decimal(minor), rest);
    DecimalValueOfDecimal(major);
    DecimalValueOfDecimal(minor);
  }

  /** A string that does not start with a digit has no version match. */
  lemma NodeVersionWithoutLeadingDigit(versionsNode: string)
    requires versionsNode == [] || !IsDigit(versionsNode[0])
    ensures NodeVersion(versionsNode) == []
  {
  }

  /**
   * The gate at line 7 as written. `[][0]` is `undefined`, and a comparison
   * with `undefined` is false, so the empty list never passes.
   */
  predicate GateAsWritten(v: seq<nat>)
  {
    |v| >= 2 && v[0] <= 14 && v[1] < 18
  }

  /** The evidently intended gate: the runtime is older than 14.18. */
  predicate NeedsPrefixRemoval(v: seq<nat>)
  {
    |v| >= 2 && (v[0] < 14 || (v[0] == 14 && v[1] < 18))
  }

  /** The written gate never fires where the intended one does not. */
  lemma GateAsWrittenImpliesIntended(v: seq<nat>)
    ensures GateAsWritten(v) ==> NeedsPrefixRemoval(v)
  {
  }

  /** The two gates differ exactly on majors below 14 with a minor of 18 or more. */
  lemma GatesDiffer(v: seq<nat>)
    ensures GateAsWritten(v) != NeedsPrefixRemoval(v) <==> |v| >= 2 && v[0] < 14 && v[1] >= 18
  {
  }

  /** Node 12.22.0 needs the rewrite, but the written gate skips it. */
  lemma GateAsWrittenMissesNode12()
    ensures NodeVersion("12.22.0") == [12, 22]
    ensures !GateAsWritten(NodeVersion("12.22.0"))
    ensures NeedsPrefixRemoval(NodeVersion("12.22.0"))
  {
    assert Decimal(12) == "12" && Decimal(22) == "22";
    assert "12.22.0" == Decimal(12) + "." + Decimal(22) + ".0";
    NodeVersionOfDecimal(12, 22, ".0");
  }

  predicate IsOpen(c: char) { c == Backspace || c == '(' }

  predicate IsClose(c: char) { c == Backspace || c == ')' }

  /** `require("node:` occurs in `code` at `k`, compared character by character. */
  predicate LiteralAt(code: string, k: nat)
  {
    && k + 14 <= |code|
    && code[k] == 'r' && code[k + 1] == 'e' && code[k + 2] == 'q' && code[k + 3] == 'u'
    && code[k + 4] == 'i' && code[k + 5] == 'r' && code[k + 6] == 'e' && code[k + 7] == '('
    && code[k + 8] == '"' && code[k + 9] == 'n' && code[k + 10] == 'o' && code[k + 11] == 'd'
    && code[k + 12] == 'e' && code[k + 13] == ':'
  }

  /** The fourteen characters of `require("node:`, one by one. */
  lemma LiteralChars()
    ensures |Literal| == 14
    ensures && Literal[0] == 'r' && Literal[1] == 'e' && Literal[2] == 'q' && Literal[3] == 'u'
            && Literal[4] == 'i' && Literal[5] == 'r' && Literal[6] == 'e' && Literal[7] == '('
            && Literal[8] == '"' && Literal[9] == 'n' && Literal[10] == 'o' && Literal[11] == 'd'
            && Literal[12] == 'e' && Literal[13] == ':'
  {
  }

  lemma LiteralAtIsOccurrence(code: string, k: nat)
    ensures LiteralAt(code, k) <==> OccursAt(code, Literal, k)
  {
    LiteralChars();
    if k + 14 <= |code| {
      var w := code[k..k + 14];
      if LiteralAt(code, k) {
        forall m | 0 <= m < 14
          ensures w[m] == Literal[m]
        {
          assert w[m] == code[k + m];
        }
        assert w == Literal;
      }
      if w == Literal {
        forall m | 0 <= m < 14
          ensures code[k + m] == Literal[m]
        {
          assert code[k + m] == w[m];
        }
        assert code[k] == Literal[0];
      }
    }
  }

  /** The first `"` at or after `j`, or the end of the text. */
  function QuoteFrom(code: string, j: nat): (q: nat)
    requires j <= |code|
    ensures j <= q <= |code|
    decreases |code| - j
  {
    if j == |code| || code[j] == '"' then j else QuoteFrom(code, j + 1)
  }

  /** `QuoteFrom` finds `q` exactly when `q` holds a quote and none comes before it. */
  lemma {:induction false} QuoteFromIs(code: string, j: nat, q: nat)
    requires j <= q < |code|
    ensures QuoteFrom(code, j) == q <==> code[q] == '"' && '"' !in code[j..q]
    decreases q - j
  {
    if j < q {
      QuoteFromIs(code, j + 1, q);
      SliceCons(code, j, q);
    }
  }

  /**
   * Where a match of `/([\b\(])require\("node:([^"]+)"\)([\b\)])/` starting
   * at `i` ends. `[^"]+` is greedy, and no shorter run can be followed by a
   * quote, so NAME is the whole run of non-quotes.
   */
  function MatchAt(code: string, i: nat): (r: Option<nat>)
    requires i <= |code|
    ensures r.Some? ==> i + 19 <= r.value <= |code|
  {
    if i + 15 <= |code| && IsOpen(code[i]) && LiteralAt(code, i + 1) then
      var q := QuoteFrom(code, i + 15);
      if q > i + 15 && q + 2 < |code| && code[q + 1] == ')' && IsClose(code[q + 2])
      then Some(q + 3)
      else None
    else None
  }

  /**
   * A call `(require("node:NAME"))` from `i` to `e`, with its delimiters:
   * NAME is `code[i + 15..e - 3]`, non-empty and free of quotes.
   */
  predicate PrefixedCallAt(code: string, i: nat, e: nat)
  {
    && i + 19 <= e <= |code|
    && IsOpen(code[i])
    && code[i + 1..i + 15] == Literal
    && '"' !in code[i + 15..e - 3]
    && code[e - 3] == '"'
    && code[e - 2] == ')'
    && IsClose(code[e - 1])
  }

  /** The pattern matches from `i` to `e` exactly when a prefixed call spans them. */
  lemma MatchAtIsPrefixedCall(code: string, i: nat, e: nat)
    requires i <= |code|
    ensures MatchAt(code, i) == Some(e) <==> PrefixedCallAt(code, i, e)
  {
    if i + 15 <= |code| {
      LiteralAtIsOccurrence(code, i + 1);
      assert |Literal| == 14;
      if i + 19 <= e <= |code| {
        QuoteFromIs(code, i + 15, e - 3);
      }
    }
  }

  /** The number of matches the global replace finds from `i` on. */
  function CountFrom(code: string, i: nat): nat
    requires i <= |code|
    decreases |code| - i
  {
    if i == |code| then 0
    else match MatchAt(code, i)
      case Some(e) => 1 + CountFrom(code, e)
      case None => CountFrom(code, i + 1)
  }

  /**
   * `code.replace(pattern, '$1require("$2")$3')` from position `i`: scan left
   * to right, rewrite each match, resume after it. Each rewrite drops
   * `node:`, five characters.
   */
  function ReplaceFrom(code: string, i: nat): (r: string)
    requires i <= |code|
    ensures |r| == |code| - i - 5 * CountFrom(code, i)
    decreases |code| - i
  {
    if i == |code| then []
    else match MatchAt(code, i)
      case Some(e) => [code[i]] + "require(\"" + code[i + 15..e - 3] + "\")" + [code[e - 1]] + ReplaceFrom(code, e)
      case None => [code[i]] + ReplaceFrom(code, i + 1)
  }

  /** One step of the scan where no match starts. */
  lemma ReplaceStepNoMatch(code: string, i: nat)
    requires i < |code| && MatchAt(code, i).None?
    ensures ReplaceFrom(code, i) == [code[i]] + ReplaceFrom(code, i + 1)
    ensures CountFrom(code, i) == CountFrom(code, i + 1)
  {
  }

  /** One step of the scan where a match starts. */
  lemma ReplaceStepMatch(code: string, i: nat)
    requires i < |code| && MatchAt(code, i).Some?
    ensures var e := MatchAt(code, i).value;
      ReplaceFrom(code, i) == [code[i]] + "require(\"" + code[i + 15..e - 3] + "\")" + [code[e - 1]] + ReplaceFrom(code, e)
  {
  }

  /** How the pieces of a match regroup once `node:` is taken out. */
  lemma RegroupCall(o: char, name: string, c: char, head: string, tail: string, rest: string)
    requires head == [o] + "require(\""
    requires tail == name + "\")" + [c]
    ensures [o] + "require(\"" + name + "\")" + [c] + rest == head + tail + rest
  {
  }

  /** A prefixed call's text is its opening, the literal, NAME and the closing three characters. */
  lemma CallPieces(code: string, i: nat, e: nat)
    requires PrefixedCallAt(code, i, e)
    ensures code[i + 10..i + 15] == "node:"
    ensures code[i..i + 10] == [code[i]] + "require(\""
    ensures code[i + 15..e] == code[i + 15..e - 3] + "\")" + [code[e - 1]]
  {
    var lit := code[i + 1..i + 15];
    assert code[i + 10..i + 15] == lit[9..14];
    assert code[i..i + 10] == [code[i]] + lit[..9];
    assert code[i + 15..e] == code[i + 15..e - 3] + code[e - 3..e];
    assert code[e - 3..e] == [code[e - 3], code[e - 2], code[e - 1]];
  }

  /** A match becomes the same text with the five characters `node:` removed. */
  lemma ReplaceAtMatch(code: string, i: nat)
    requires i <= |code| && MatchAt(code, i).Some?
    ensures code[i + 10..i + 15] == "node:"
    ensures ReplaceFrom(code, i)
         == code[i..i + 10] + code[i + 15..MatchAt(code, i).value] + ReplaceFrom(code, MatchAt(code, i).value)
  {
    var e := MatchAt(code, i).value;
    MatchAtIsPrefixedCall(code, i, e);
    CallPieces(code, i, e);
    ReplaceStepMatch(code, i);
    RegroupCall(code[i], code[i + 15..e - 3], code[e - 1], code[i..i + 10], code[i + 15..e], ReplaceFrom(code, e));
  }

  lemma ConsAppend(c: char, a: string, b: string, whole: string)
    requires whole == [c] + a
    ensures [c] + (a + b) == whole + b
  {
  }

  /** Text in which no match starts is copied unchanged. */
  lemma {:induction false} ReplaceCopiesUnmatched(code: string, i: nat, j: nat)
    requires i <= j <= |code|
    requires forall k :: i <= k < j ==> MatchAt(code, k).None?
    ensures ReplaceFrom(code, i) == code[i..j] + ReplaceFrom(code, j)
    decreases j - i
  {
    if i < j {
      ReplaceStepNoMatch(code, i);
      ReplaceCopiesUnmatched(code, i + 1, j);
      SliceCons(code, i, j);
      ConsAppend(code[i], code[i + 1..j], ReplaceFrom(code, j), code[i..j]);
    }
  }

  /** Text in which no match starts adds nothing to the count. */
  lemma {:induction false} CountSkipsUnmatched(code: string, i: nat, j: nat)
    requires i <= j <= |code|
    requires forall k :: i <= k < j ==> MatchAt(code, k).None?
    ensures CountFrom(code, i) == CountFrom(code, j)
    decreases j - i
  {
    if i < j {
      ReplaceStepNoMatch(code, i);
      CountSkipsUnmatched(code, i + 1, j);
    }
  }

  /** With no match the text is returned unchanged. */
  lemma {:induction false} NoMatchUnchanged(code: string, i: nat)
    requires i <= |code| && CountFrom(code, i) == 0
    ensures ReplaceFrom(code, i) == code[i..]
    decreases |code| - i
  {
    if i < |code| {
      assert MatchAt(code, i).None?;
      ReplaceStepNoMatch(code, i);
      NoMatchUnchanged(code, i + 1);
      SliceCons(code, i, |code|);
      ConsAppend(code[i], code[i + 1..], [], code[i..]);
    }
  }

  /** The rewrite leaves the text as it was exactly when nothing matched. */
  lemma UnchangedIffNoMatch(code: string)
    ensures ReplaceFrom(code, 0) == code <==> CountFrom(code, 0) == 0
  {
    if CountFrom(code, 0) == 0 {
      NoMatchUnchanged(code, 0);
    }
  }

  /** Every match starts with the literal, so text without it has none. */
  lemma {:induction false} NoLiteralNoMatch(code: string, i: nat)
    requires i <= |code| && !Contains(code, Literal)
    ensures CountFrom(code, i) == 0
    decreases |code| - i
  {
    if i < |code| {
      if MatchAt(code, i).Some? {
        LiteralAtIsOccurrence(code, i + 1);
      }
      NoLiteralNoMatch(code, i + 1);
    }
  }

  /** Code without the literal comes out of the replace unchanged. */
  lemma NoLiteralUnchanged(code: string)
    ensures !Contains(code, Literal) ==> ReplaceFrom(code, 0) == code
  {
    if !Contains(code, Literal) {
      NoLiteralNoMatch(code, 0);
      NoMatchUnchanged(code, 0);
    }
  }

  /** The rewrite on its own, with the gate as a boolean. */
  function RemoveNodePrefixWhen(gate: bool, code: string): (r: string)
    ensures !gate ==> r == code
    ensures gate ==> |r| == |code| - 5 * CountFrom(code, 0)
    ensures !Contains(code, Literal) ==> r == code
  {
    if gate then
      NoLiteralUnchanged(code);
      ReplaceFrom(code, 0)
    else code
  }

  /** `removeNodePrefix` exactly as written, with the gate of line 7. */
  function RemoveNodePrefixAsWritten(versionsNode: string, code: string): (r: string)
    ensures !GateAsWritten(NodeVersion(versionsNode)) ==> r == code
    ensures GateAsWritten(NodeVersion(versionsNode)) ==> |r| == |code| - 5 * CountFrom(code, 0)
    ensures !Contains(code, Literal) ==> r == code
  {
    RemoveNodePrefixWhen(GateAsWritten(NodeVersion(versionsNode)), code)
  }

  /** `removeNodePrefix` with the corrected gate: rewrite only on runtimes older than 14.18. */
  function RemoveNodePrefix(versionsNode: string, code: string): (r: string)
    ensures !NeedsPrefixRemoval(NodeVersion(versionsNode)) ==> r == code
    ensures NeedsPrefixRemoval(NodeVersion(versionsNode)) ==> |r| == |code| - 5 * CountFrom(code, 0)
    ensures !Contains(code, Literal) ==> r == code
  {
    RemoveNodePrefixWhen(NeedsPrefixRemoval(NodeVersion(versionsNode)), code)
  }
}
