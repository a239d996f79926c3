/**
 * The version resolver: `get_codex_version` runs `codex --version` and
 * returns the first substring of its standard output that matches the
 * regular expression `\d+\.\d+\.\d+`.
 *
 * The scanner below is specified against a declarative description of
 * that regular expression: `IsVersion` says what a matching string looks
 * like, and `ExtractVersion` is proved to return the leftmost match, taken
 * as long as possible (what Python's `re.search` returns for this pattern).
 */
module Version {
  import opened Wrappers

  /** What running `codex --version` gave: the program could not be
      started at all, or it exited with a status and printed `stdout`. */
  datatype Probe = Missing | Exited(code: int, stdout: string)

  predicate IsDigit(c: char) {
    '0' <= c <= '9'
  }

  predicate AllDigits(s: string) {
    forall k :: 0 <= k < |s| ==> IsDigit(s[k])
  }

  /** `t` reads digits, a dot at `p`, digits, a dot at `q`, digits,
      each run of digits non-empty. */
  ghost predicate Shaped(t: string, p: int, q: int) {
    && 0 < p && p + 1 < q && q + 1 < |t|
    && t[p] == '.' && t[q] == '.'
    && AllDigits(t[..p]) && AllDigits(t[p + 1..q]) && AllDigits(t[q + 1..])
  }

  /** `t` as a whole matches `\d+\.\d+\.\d+`. */
  ghost predicate IsVersion(t: string) {
    exists p, q :: Shaped(t, p, q)
  }

  /** No substring of `s` that starts at `i` or later matches. */
  ghost predicate NoVersionFrom(s: string, i: nat) {
    forall j, m :: i <= j <= m <= |s| ==> !IsVersion(s[j..m])
  }

  /** `s[x..y]` is the match a left-to-right search starting at `i` finds:
      it matches, nothing matches that starts in `[i, x)`, and no longer
      substring starting at `x` matches. */
  ghost predicate LeftmostLongestFrom(s: string, i: nat, x: nat, y: nat) {
    && i <= x <= y <= |s|
    && IsVersion(s[x..y])
    && (forall j, m :: i <= j < x && j <= m <= |s| ==> !IsVersion(s[j..m]))
    && (forall m :: y < m <= |s| ==> !IsVersion(s[x..m]))
  }

  /** End of the run of digits that starts at `i`. */
  function RunEnd(s: string, i: nat): (j: nat)
    requires i <= |s|
    ensures i <= j <= |s|
    ensures forall k :: i <= k < j ==> IsDigit(s[k])
    ensures j == |s| || !IsDigit(s[j])
    decreases |s| - i
  {
    if i == |s| || !IsDigit(s[i]) then i else RunEnd(s, i + 1)
  }

  /** End of the match that starts exactly at `i`, if there is one: three
      runs of digits separated by dots; the last run is taken whole. */
  function MatchEnd(s: string, i: nat): Option<nat>
    requires i <= |s|
  {
    var a := RunEnd(s, i);
    if a == i || a == |s| || s[a] != '.' then None
    else
      var b := RunEnd(s, a + 1);
      if b == a + 1 || b == |s| || s[b] != '.' then None
      else
        var c := RunEnd(s, b + 1);
        if c == b + 1 then None else Some(c)
  }

  /** The span of the first match at position `i` or later. */
  function FindFrom(s: string, i: nat): Option<(nat, nat)>
    requires i <= |s|
    decreases |s| - i
  {
    if i == |s| then None
    else
      match MatchEnd(s, i)
      case Some(c) => Some((i, c))
      case None => FindFrom(s, i + 1)
  }

  /** The version `get_codex_version` reads from the output `out`. */
  function ExtractVersion(out: string): (r: Option<string>)
    ensures r.None? <==> NoVersionFrom(out, 0)
    ensures r.Some? ==> exists x: nat, y: nat :: LeftmostLongestFrom(out, 0, x, y) && r.value == out[x..y]
  {
    FindFromCorrect(out, 0);
    match FindFrom(out, 0)
    case None => None
    case Some(span) =>
      assert LeftmostLongestFrom(out, 0, span.0, span.1);
      Some(out[span.0..span.1])
  }

  /** `get_codex_version`: no version when `codex` cannot be run or exits
      with a non-zero status; otherwise the first match in its output. */
  function CodexVersion(p: Probe): (r: Option<string>)
    ensures p.Missing? ==> r == None
    ensures p.Exited? && p.code != 0 ==> r == None
    ensures p.Exited? && p.code == 0 ==> r == ExtractVersion(p.stdout)
    ensures r.Some? ==> IsVersion(r.value) && |r.value| >= 5
  {
    match p
    case Missing => None
    case Exited(code, stdout) =>
      if code != 0 then None
      else
        ExtractedLength(stdout);
        ExtractVersion(stdout)
  }

  lemma ExtractedLength(out: string)
    ensures ExtractVersion(out).Some? ==> |ExtractVersion(out).value| >= 5
  {
    if ExtractVersion(out).Some? {
      var p, q :| Shaped(ExtractVersion(out).value, p, q);
    }
  }

  lemma SliceOfDigits(t: string, lo: nat, hi: nat)
    requires lo <= hi <= |t|
    requires forall k :: lo <= k < hi ==> IsDigit(t[k])
    ensures AllDigits(t[lo..hi])
  {
  }

  /** A run of digits from `i` that stops at a non-digit (or the end) at
      `j` is the run `RunEnd` finds. */
  lemma RunEndIs(s: string, i: nat, j: nat)
    requires i <= j <= |s|
    requires forall k :: i <= k < j ==> IsDigit(s[k])
    requires j == |s| || !IsDigit(s[j])
    ensures RunEnd(s, i) == j
  {
  }

  /** Any substring of `s` from `i` to `m` that matches forces the match
      found at `i` to end at `m` or later. */
  lemma ShapeForcesMatch(s: string, i: nat, m: nat, p: int, q: int)
    requires i <= m <= |s|
    requires Shaped(s[i..m], p, q)
    ensures MatchEnd(s, i).Some? && MatchEnd(s, i).value >= m
  {
    var t := s[i..m];
    assert s[i + p] == t[p] && s[i + q] == t[q];
    forall k | i <= k < i + p
      ensures IsDigit(s[k])
    {
      assert s[k] == t[..p][k - i];
    }
    forall k | i + p + 1 <= k < i + q
      ensures IsDigit(s[k])
    {
      assert s[k] == t[p + 1..q][k - i - p - 1];
    }
    forall k | i + q + 1 <= k < m
      ensures IsDigit(s[k])
    {
      assert s[k] == t[q + 1..][k - i - q - 1];
    }
    RunEndIs(s, i, i + p);
    RunEndIs(s, i + p + 1, i + q);
  }

  lemma MatchEndCorrect(s: string, i: nat)
    requires i <= |s|
    ensures MatchEnd(s, i).Some? ==>
      && i < MatchEnd(s, i).value <= |s|
      && IsVersion(s[i..MatchEnd(s, i).value])
      && forall m :: MatchEnd(s, i).value < m <= |s| ==> !IsVersion(s[i..m])
    ensures MatchEnd(s, i).None? ==> forall m :: i <= m <= |s| ==> !IsVersion(s[i..m])
  {
    match MatchEnd(s, i)
    case Some(c) =>
      var a := RunEnd(s, i);
      var b := RunEnd(s, a + 1);
      var t := s[i..c];
      assert t[..a - i] == s[i..a];
      assert t[a - i + 1..b - i] == s[a + 1..b];
      assert t[b - i + 1..] == s[b + 1..c];
      SliceOfDigits(s, i, a);
      SliceOfDigits(s, a + 1, b);
      SliceOfDigits(s, b + 1, c);
      assert Shaped(t, a - i, b - i);
      forall m | c < m <= |s|
        ensures !IsVersion(s[i..m])
      {
        if IsVersion(s[i..m]) {
          var p, q :| Shaped(s[i..m], p, q);
          ShapeForcesMatch(s, i, m, p, q);
        }
      }
    case None =>
      forall m | i <= m <= |s|
        ensures !IsVersion(s[i..m])
      {
        if IsVersion(s[i..m]) {
          var p, q :| Shaped(s[i..m], p, q);
          ShapeForcesMatch(s, i, m, p, q);
        }
      }
  }

  /** The search from `i` finds the leftmost-longest match, and finds
      nothing only when no substring from `i` on matches. */
  lemma {:induction false} FindFromCorrect(s: string, i: nat)
    requires i <= |s|
    ensures FindFrom(s, i).Some? ==>
      LeftmostLongestFrom(s, i, FindFrom(s, i).value.0, FindFrom(s, i).value.1)
    ensures FindFrom(s, i).None? ==> NoVersionFrom(s, i)
    decreases |s| - i
  {
    if i == |s| {
      if IsVersion(s[i..i]) {
        var p, q :| Shaped(s[i..i], p, q);
      }
    } else {
      MatchEndCorrect(s, i);
      if MatchEnd(s, i).None? {
        FindFromCorrect(s, i + 1);
      }
    }
  }

  /** The leftmost-longest match is unique, so `ExtractVersion` is fully
      determined by its contract. */
  lemma LeftmostLongestUnique(s: string, i: nat, x: nat, y: nat, x': nat, y': nat)
    requires LeftmostLongestFrom(s, i, x, y)
    requires LeftmostLongestFrom(s, i, x', y')
    ensures x == x' && y == y'
  {
  }

  /** Positions that hold no digit start no match, so the search moves past them. */
  lemma {:induction false} FindFromSkips(s: string, i: nat, j: nat)
    requires i <= j <= |s|
    requires forall k :: i <= k < j ==> !IsDigit(s[k])
    ensures FindFrom(s, i) == FindFrom(s, j)
    decreases j - i
  {
    if i < j {
      assert MatchEnd(s, i) == None;
      FindFromSkips(s, i + 1, j);
    }
  }

  /** The output of the installed CLI, `codex-cli X.Y.Z` with one-digit
      components, yields `X.Y.Z`. */
  lemma ExtractVersionExample(x: char, y: char, z: char)
    requires IsDigit(x) && IsDigit(y) && IsDigit(z)
    ensures ExtractVersion("codex-cli " + [x, '.', y, '.', z]) == Some([x, '.', y, '.', z])
  {
    var s := "codex-cli " + [x, '.', y, '.', z];
    assert s[0] == 'c' && s[1] == 'o' && s[2] == 'd' && s[3] == 'e' && s[4] == 'x';
    assert s[5] == '-' && s[6] == 'c' && s[7] == 'l' && s[8] == 'i' && s[9] == ' ';
    assert s[10] == x && s[11] == '.' && s[12] == y && s[13] == '.' && s[14] == z;
    forall k | 0 <= k < 10
      ensures !IsDigit(s[k])
    {
      if k < 5 {
        if k < 2 { } else { }
      } else {
        if k < 7 { } else { }
      }
    }
    FindFromSkips(s, 0, 10);
    assert RunEnd(s, 14) == 15;
    assert RunEnd(s, 12) == 13;
    assert RunEnd(s, 10) == 11;
    assert FindFrom(s, 10) == Some((10, 15));
    assert s[10..15] == [x, '.', y, '.', z];
  }

  /** The match is a substring, not the last word: only the first match
      counts, and text after it is ignored. */
  lemma ExtractVersionFirstMatch()
    ensures ExtractVersion("1.2.3 (4.5.6)") == Some("1.2.3")
  {
    var s := "1.2.3 (4.5.6)";
    assert RunEnd(s, 4) == 5;
    assert RunEnd(s, 2) == 3;
    assert RunEnd(s, 0) == 1;
    assert FindFrom(s, 0) == Some((0, 5));
    assert s[0..5] == "1.2.3";
  }
}
