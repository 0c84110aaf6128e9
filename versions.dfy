/**
 * Version text: the release tag's leading `v`, and the post-install check
 * that reads the version `ispc --version` prints with the pattern
 * `([0-9]+)\.([0-9]+)\.([0-9]+)` and compares it with the requested one.
 */
module Versions {
  import opened Results
  import opened Errors

  /** getLatestVersion: one leading `v` is removed from the tag, nothing else changes. */
  function StripTag(tag: string): (r: string)
    ensures tag == r || tag == "v" + r
    ensures tag == "v" + r <==> |tag| > 0 && tag[0] == 'v'
  {
    if |tag| > 0 && tag[0] == 'v' then tag[1..] else tag
  }

  predicate IsDigit(c: char) {
    '0' <= c <= '9'
  }

  predicate AllDigits(s: string) {
    forall k :: 0 <= k < |s| ==> IsDigit(s[k])
  }

  /**
   * `t` is `digits.digits.digits` with the two dots at `p` and `q`: the
   * language of the pattern, with each group non-empty.
   */
  predicate SplitsAt(t: string, p: nat, q: nat) {
    && 0 < p && p + 1 < q && q + 1 < |t|
    && AllDigits(t[..p]) && t[p] == '.'
    && AllDigits(t[p + 1..q]) && t[q] == '.'
    && AllDigits(t[q + 1..])
  }

  /** `t` matches the version pattern as a whole. */
  ghost predicate IsTriple(t: string) {
    exists p: nat, q: nat :: SplitsAt(t, p, q)
  }

  /** Some match of the pattern starts at `i`. */
  ghost predicate MatchesAt(s: string, i: nat) {
    exists j :: i <= j <= |s| && IsTriple(s[i..j])
  }

  /**
   * What `String.prototype.match` returns for the pattern: the match that
   * starts leftmost and, from there, runs longest (each `[0-9]+` is greedy).
   */
  ghost predicate LeftmostLongest(s: string, i: nat, j: nat) {
    && i <= j <= |s| && IsTriple(s[i..j])
    && (forall i' :: 0 <= i' < i ==> !MatchesAt(s, i'))
    && (forall j' :: j < j' <= |s| ==> !IsTriple(s[i..j']))
  }

  /** The end of the run of digits that starts at `i`. */
  function DigitRunEnd(s: string, i: nat): (j: nat)
    requires i <= |s|
    ensures i <= j <= |s| && AllDigits(s[i..j])
    ensures j == |s| || !IsDigit(s[j])
    decreases |s| - i
  {
    if i < |s| && IsDigit(s[i]) then
      var j := DigitRunEnd(s, i + 1);
      assert forall k :: 0 < k < j - i ==> s[i..j][k] == s[i + 1..j][k - 1];
      j
    else i
  }

  /**
   * Where the pattern's match from `i` ends, if it matches there. A digit
   * group followed by a digit is never followed by the dot the pattern needs,
   * so backtracking never shortens a group: each group is the full run.
   */
  function MatchEnd(s: string, i: nat): Option<nat>
    requires i <= |s|
  {
    var j1 := DigitRunEnd(s, i);
    if j1 == i || j1 == |s| || s[j1] != '.' then None
    else
      var j2 := DigitRunEnd(s, j1 + 1);
      if j2 == j1 + 1 || j2 == |s| || s[j2] != '.' then None
      else
        var j3 := DigitRunEnd(s, j2 + 1);
        if j3 == j2 + 1 then None else Some(j3)
  }

  /** The first start at or after `i` where the pattern matches, with its end. */
  function FirstMatch(s: string, i: nat): (r: Option<(nat, nat)>)
    requires i <= |s|
    ensures r.Some? ==>
      i <= r.value.0 <= |s| && MatchEnd(s, r.value.0) == Some(r.value.1)
      && forall k :: i <= k < r.value.0 ==> MatchEnd(s, k).None?
    ensures r.None? ==> forall k :: i <= k <= |s| ==> MatchEnd(s, k).None?
    decreases |s| - i
  {
    match MatchEnd(s, i)
    case Some(j) => Some((i, j))
    case None => if i == |s| then None else FirstMatch(s, i + 1)
  }

  /** `output.match(pattern)[0]`, or None where `match` returns null. */
  function FindVersion(output: string): (r: Option<string>)
    ensures r.Some? ==> IsTriple(r.value)
  {
    match FirstMatch(output, 0)
    case None => None
    case Some((i, j)) =>
      MatchEndSound(output, i);
      Some(output[i..j])
  }

  /** A digit run is as long as the digits that follow its start. */
  lemma DigitRunCovers(s: string, i: nat, k: nat)
    requires i <= k <= |s| && AllDigits(s[i..k])
    ensures DigitRunEnd(s, i) >= k
    ensures k == |s| || !IsDigit(s[k]) ==> DigitRunEnd(s, i) == k
  {
    var j := DigitRunEnd(s, i);
    if j > k {
      assert IsDigit(s[i..j][k - i]);
    }
  }

  /** Every end `MatchEnd` reports closes a match, and at a digit boundary. */
  lemma MatchEndSound(s: string, i: nat)
    requires i <= |s| && MatchEnd(s, i).Some?
    ensures var j := MatchEnd(s, i).value;
      i <= j <= |s| && IsTriple(s[i..j]) && (j == |s| || !IsDigit(s[j]))
  {
    var j1 := DigitRunEnd(s, i);
    var j2 := DigitRunEnd(s, j1 + 1);
    var j3 := DigitRunEnd(s, j2 + 1);
    var t := s[i..j3];
    var p, q := j1 - i, j2 - i;
    assert t[..p] == s[i..j1];
    assert t[p + 1..q] == s[j1 + 1..j2];
    assert t[q + 1..] == s[j2 + 1..j3];
    assert SplitsAt(t, p, q);
  }

  /** Wherever a match starts, `MatchEnd` finds one reaching at least as far. */
  lemma MatchEndComplete(s: string, i: nat, k: nat)
    requires i <= k <= |s| && IsTriple(s[i..k])
    ensures MatchEnd(s, i).Some? && MatchEnd(s, i).value >= k
    ensures k == |s| || !IsDigit(s[k]) ==> MatchEnd(s, i) == Some(k)
  {
    var a, b := TripleSplit(s, i, k);
    DigitRunCovers(s, i, a);
    assert DigitRunEnd(s, i) == a;
    DigitRunCovers(s, a + 1, b);
    assert DigitRunEnd(s, a + 1) == b;
    DigitRunCovers(s, b + 1, k);
    assert MatchEnd(s, i) == Some(DigitRunEnd(s, b + 1));
  }

  /** The dots of a match, as positions in the whole text. */
  lemma TripleSplit(s: string, i: nat, k: nat) returns (a: nat, b: nat)
    requires i <= k <= |s| && IsTriple(s[i..k])
    ensures i < a && a + 1 < b && b + 1 < k
    ensures AllDigits(s[i..a]) && s[a] == '.' && AllDigits(s[a + 1..b]) && s[b] == '.'
    ensures AllDigits(s[b + 1..k]) && IsDigit(s[b + 1])
  {
    var t := s[i..k];
    var p: nat, q: nat :| SplitsAt(t, p, q);
    a, b := i + p, i + q;
    SliceOfSlice(s, i, k, 0, p);
    assert s[a] == t[p];
    SliceOfSlice(s, i, k, p + 1, q);
    assert s[b] == t[q];
    SliceOfSlice(s, i, k, q + 1, k - i);
    assert IsDigit(s[b + 1]) by { assert t[q + 1..][0] == s[b + 1]; }
  }

  lemma SliceOfSlice(s: string, i: nat, k: nat, a: nat, b: nat)
    requires i <= k <= |s| && a <= b <= k - i
    ensures s[i..k][a..b] == s[i + a..i + b]
  {
    forall m | 0 <= m < b - a ensures s[i..k][a..b][m] == s[i + a..i + b][m] {
      assert s[i..k][a..b][m] == s[i + a + m];
    }
  }

  /**
   * FindVersion is exactly the leftmost-longest match of the pattern, and it
   * finds none only when no substring matches.
   */
  lemma FindVersionSpec(s: string)
    ensures match FirstMatch(s, 0)
      case Some((i, j)) => LeftmostLongest(s, i, j) && FindVersion(s) == Some(s[i..j])
      case None => FindVersion(s).None? && forall i :: 0 <= i <= |s| ==> !MatchesAt(s, i)
  {
    match FirstMatch(s, 0)
    case Some((i, j)) =>
      MatchEndSound(s, i);
      forall i' | 0 <= i' < i ensures !MatchesAt(s, i') {
        if MatchesAt(s, i') {
          var k :| i' <= k <= |s| && IsTriple(s[i'..k]);
          MatchEndComplete(s, i', k);
        }
      }
      forall j' | j < j' <= |s| ensures !IsTriple(s[i..j']) {
        if IsTriple(s[i..j']) {
          MatchEndComplete(s, i, j');
        }
      }
    case None =>
      forall i | 0 <= i <= |s| ensures !MatchesAt(s, i) {
        if MatchesAt(s, i) {
          var k :| i <= k <= |s| && IsTriple(s[i..k]);
          MatchEndComplete(s, i, k);
        }
      }
  }

  /**
   * The version printed after digit-free text, and not followed by another
   * digit, is the one found.
   */
  lemma FindVersionAfter(pre: string, t: string, post: string)
    requires forall k :: 0 <= k < |pre| ==> !IsDigit(pre[k])
    requires IsTriple(t)
    requires post == [] || !IsDigit(post[0])
    ensures FindVersion(pre + t + post) == Some(t)
  {
    var s := pre + t + post;
    var i, k := |pre|, |pre| + |t|;
    assert s[i..k] == t;
    MatchEndComplete(s, i, k);
    forall m | 0 <= m < i ensures MatchEnd(s, m).None? {
      assert s[m] == pre[m];
    }
    FirstMatchFrom(s, 0, i, k);
  }

  /** The search from `from` stops at the first start that matches. */
  lemma {:induction false} FirstMatchFrom(s: string, from: nat, i: nat, k: nat)
    requires from <= i <= |s| && MatchEnd(s, i) == Some(k)
    requires forall m :: from <= m < i ==> MatchEnd(s, m).None?
    ensures FirstMatch(s, from) == Some((i, k))
    decreases i - from
  {
    if from < i {
      FirstMatchFrom(s, from + 1, i, k);
    }
  }

  /**
   * The post-install check: the tool must exit with status 0 and the first
   * version its output prints must be the requested text exactly. A non-zero
   * or missing status, output that prints no version, and any other version
   * are the three failures, in that order of precedence.
   */
  function CheckInstalled(version: string, exitCode: Option<int>, output: string, exe: string)
    : (r: Result<(), Error>)
    ensures r.Ok? <==> exitCode == Some(0) && FindVersion(output) == Some(version)
    ensures exitCode != Some(0) ==> r == Err(RunFailed(exe))
    ensures exitCode == Some(0) && FindVersion(output).None? ==> r == Err(NoVersionInOutput)
    ensures exitCode == Some(0) && FindVersion(output).Some? && r.Err? ==>
      r == Err(VersionMismatch(version, FindVersion(output).value))
  {
    if exitCode == Some(0) then
      match FindVersion(output)
      case None => Err(NoVersionInOutput)
      case Some(found) => if found == version then Ok(()) else Err(VersionMismatch(version, found))
    else Err(RunFailed(exe))
  }

  /** Only a `digits.digits.digits` version can ever pass the check. */
  lemma CheckedVersionIsTriple(version: string, exitCode: Option<int>, output: string, exe: string)
    requires CheckInstalled(version, exitCode, output, exe).Ok?
    ensures IsTriple(version)
  {
    FindVersionSpec(output);
  }

  /**
   * Output that reports the requested version (after text without digits)
   * passes; output that reports any other version fails with that version.
   */
  lemma CheckComparesReported(version: string, found: string, pre: string, post: string, exe: string)
    requires forall k :: 0 <= k < |pre| ==> !IsDigit(pre[k])
    requires IsTriple(found)
    requires post == [] || !IsDigit(post[0])
    ensures CheckInstalled(version, Some(0), pre + found + post, exe) ==
      if found == version then Ok(()) else Err(VersionMismatch(version, found))
  {
    FindVersionAfter(pre, found, post);
  }

  /** A single differing patch digit is a mismatch. */
  lemma PatchMismatchFails(exe: string)
    ensures CheckInstalled("2.3.1", Some(0), "ISPC 2.3.0\n", exe) == Err(VersionMismatch("2.3.1", "2.3.0"))
  {
    assert SplitsAt("2.3.0", 1, 3);
    assert "ISPC 2.3.0\n" == "ISPC " + "2.3.0" + "\n";
    CheckComparesReported("2.3.1", "2.3.0", "ISPC ", "\n", exe);
  }
}
