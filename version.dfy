/**
 * Extraction of a version token from the text a program prints when run
 * with `--version`. The source applies the regular expression
 * `(?P<version>\d\S*)\s` with `search`; this module scans for the same match
 * by hand. The code is Python 2 matching a byte string, so `\d` is an ASCII
 * digit and `\s` one of space, tab, newline, carriage return, vertical tab
 * and form feed.
 */
module Version {
  import opened Wrappers

  predicate IsDigit(c: char) {
    '0' <= c <= '9'
  }

  predicate IsSpace(c: char) {
    c == ' ' || c == '\t' || c == '\n' || c == '\r' || c == '\U{000B}' || c == '\U{000C}'
  }

  /** The end of the run of non-whitespace characters that starts at `i`. */
  function RunEnd(s: string, i: nat): (r: nat)
    requires i <= |s|
    ensures i <= r <= |s|
    ensures forall k :: i <= k < r ==> !IsSpace(s[k])
    ensures r == |s| || IsSpace(s[r])
    decreases |s| - i
  {
    if i == |s| || IsSpace(s[i]) then i else RunEnd(s, i + 1)
  }

  /**
   * The pattern, read literally: its group matches `s[i..i + n]` when that
   * text is a digit followed by non-whitespace, and the character after it
   * is whitespace.
   */
  ghost predicate PatternAt(s: string, i: nat, n: nat) {
    && 1 <= n && i + n < |s|
    && IsDigit(s[i])
    && (forall k :: i < k < i + n ==> !IsSpace(s[k]))
    && IsSpace(s[i + n])
  }

  /** A match of the pattern can start at `i`: a digit whose run is followed by whitespace. */
  predicate MatchesAt(s: string, i: nat) {
    i < |s| && IsDigit(s[i]) && RunEnd(s, i) < |s|
  }

  /**
   * The pattern matches at `i` with exactly one group length, the whole
   * non-whitespace run: greedy and backtracking readings of `\S*` agree, and
   * a run that reaches the end of the text gives no match.
   */
  lemma PatternAtIsRun(s: string, i: nat, n: nat)
    ensures PatternAt(s, i, n) <==> MatchesAt(s, i) && n == RunEnd(s, i) - i
  {
    if PatternAt(s, i, n) {
      assert !IsSpace(s[i]);
    }
  }

  /** Inside a run that reaches the end of the text, every run reaches the end. */
  lemma RunToEnd(s: string, i: nat, k: nat)
    requires i <= k <= |s| && RunEnd(s, i) == |s|
    ensures RunEnd(s, k) == |s|
  {
  }

  /** The leftmost position at or after `i` where a match starts (what `search` finds). */
  function FirstMatchFrom(s: string, i: nat): (r: Option<nat>)
    requires i <= |s|
    ensures r.Some? ==> i <= r.value < |s| && MatchesAt(s, r.value)
    ensures r.Some? ==> forall k :: i <= k < r.value ==> !MatchesAt(s, k)
    ensures r.None? ==> forall k :: i <= k < |s| ==> !MatchesAt(s, k)
    decreases |s| - i
  {
    if i == |s| then None
    else if !IsDigit(s[i]) then FirstMatchFrom(s, i + 1)
    else if RunEnd(s, i) < |s| then Some(i)
    else
      // the run from this digit reaches the end of the text, and so does every later run
      assert forall k :: i <= k <= |s| ==> RunEnd(s, k) == |s| by {
        forall k | i <= k <= |s| ensures RunEnd(s, k) == |s| { RunToEnd(s, i, k); }
      }
      None
  }

  /** `_get_version`'s parse of the captured output: the `version` group, or `None`. */
  function ExtractVersion(output: string): (r: Option<string>)
    ensures r.None? <==> forall i :: 0 <= i < |output| ==> !MatchesAt(output, i)
    ensures r.Some? ==> |r.value| >= 1 && IsDigit(r.value[0])
    ensures r.Some? ==> forall k :: 0 <= k < |r.value| ==> !IsSpace(r.value[k])
  {
    match FirstMatchFrom(output, 0)
    case None => None
    case Some(i) => Some(output[i..RunEnd(output, i)])
  }

  /**
   * The token found is the group of the leftmost match: when the pattern
   * matches at `i` with group length `n` and at no earlier position, the
   * result is `output[i..i + n]`.
   */
  lemma ExtractVersionIsLeftmostMatch(output: string, i: nat, n: nat)
    requires PatternAt(output, i, n)
    requires forall j, m :: 0 <= j < i ==> !PatternAt(output, j, m)
    ensures ExtractVersion(output) == Some(output[i..i + n])
  {
    PatternAtIsRun(output, i, n);
    forall j | 0 <= j < i ensures !MatchesAt(output, j) {
      PatternAtIsRun(output, j, RunEnd(output, j) - j);
    }
  }

  /** When the pattern matches nowhere, no version is found. */
  lemma ExtractVersionNone(output: string)
    requires forall i, n :: !PatternAt(output, i, n)
    ensures ExtractVersion(output) == None
  {
    forall i | 0 <= i < |output| ensures !MatchesAt(output, i) {
      PatternAtIsRun(output, i, RunEnd(output, i) - i);
    }
  }

  /** Text ending in a token with no whitespace after it yields no version for that token. */
  lemma TrailingTokenIgnored(prefix: string, token: string)
    requires forall i :: 0 <= i < |prefix| ==> !MatchesAt(prefix + token, i)
    requires forall k :: 0 <= k < |token| ==> !IsSpace(token[k])
    ensures ExtractVersion(prefix + token) == None
  {
    var s := prefix + token;
    forall i | |prefix| <= i < |s| ensures !MatchesAt(s, i) {
      assert forall k :: i <= k < |s| ==> s[k] == token[k - |prefix|];
    }
  }

  /** Python's banner: the version follows the program name. */
  lemma PythonBanner()
    ensures ExtractVersion("Python 2.7.3\n") == Some("2.7.3")
  {
    var s := "Python 2.7.3\n";
    assert s == "Python " + "2.7.3" + "\n";
    assert forall j :: 0 <= j < 7 ==> !IsDigit(s[j]);
    assert PatternAt(s, 7, 5);
    ExtractVersionIsLeftmostMatch(s, 7, 5);
    assert s[7..12] == "2.7.3";
  }

  /** A digit inside a word starts the token: `v2.0.0` gives `2.0.0`. */
  lemma DigitInsideWord()
    ensures ExtractVersion("nest v2.0.0 rc1\n") == Some("2.0.0")
  {
    var s := "nest v2.0.0 rc1\n";
    assert s == "nest v" + "2.0.0" + " rc1\n";
    assert forall j :: 0 <= j < 6 ==> !IsDigit(s[j]);
    assert PatternAt(s, 6, 5);
    ExtractVersionIsLeftmostMatch(s, 6, 5);
    assert s[6..11] == "2.0.0";
  }

  /** Output that ends in the version with no newline after it gives no version, and so does no output. */
  lemma UnterminatedBanner()
    ensures ExtractVersion("nest 2") == None
    ensures ExtractVersion("") == None
  {
    var prefix := "nest ";
    assert forall j :: 0 <= j < 5 ==> !IsDigit((prefix + "2")[j]);
    TrailingTokenIgnored(prefix, "2");
    assert prefix + "2" == "nest 2";
  }
}
