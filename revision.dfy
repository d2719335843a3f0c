/**
 * Finding the upstream commit to merge: the SVN revision number recorded in a
 * commit's `git-svn-id:` trailer (`_ParseSvnRevisionFromGitCommitMessage`) and
 * the choice of (revision, sha1) from a given sha1, `HEAD`, a given revision or
 * the last known good revision (`_GetSVNRevisionAndSHA1`).
 *
 * Git is not run: what `git show` and `git log` print, and the LKGR value
 * fetched over HTTP, are fields of an `Upstream` value.
 */
module Revision {
  import opened Wrappers
  import opened Errors
  import opened Text

  const TrailerPrefix: string := "git-svn-id: "

  // ---------------------------------------------------------------------------
  // re.search(r'^git-svn-id: .*@([0-9]+)', message, flags=re.MULTILINE).group(1)

  /** An `@` at position `p` immediately followed by a digit. */
  predicate AtDigit(t: string, p: int) {
    0 <= p && p + 1 < |t| && t[p] == '@' && IsDigit(t[p + 1])
  }

  /** The last position below `n` holding an `@` followed by a digit. */
  function LastAtDigit(t: string, n: nat): (r: Option<nat>)
    requires n <= |t|
    ensures r.Some? ==> r.value < n && AtDigit(t, r.value)
    ensures r.Some? ==> forall q :: r.value < q < n ==> !AtDigit(t, q)
    ensures r.None? ==> forall q :: 0 <= q < n ==> !AtDigit(t, q)
    decreases n
  {
    if n == 0 then None
    else if AtDigit(t, n - 1) then Some(n - 1)
    else LastAtDigit(t, n - 1)
  }

  /** The maximal run of digits at the start of `t` (what greedy `[0-9]+` takes). */
  function DigitRun(t: string): (d: string)
    ensures StartsWith(t, d) && IsDigits(d)
    ensures |d| == |t| || !IsDigit(t[|d|])
    ensures |t| > 0 && IsDigit(t[0]) ==> |d| > 0
    decreases |t|
  {
    if |t| > 0 && IsDigit(t[0]) then [t[0]] + DigitRun(t[1..]) else ""
  }

  /**
   * The group the pattern captures when it matches at the start of `line`:
   * the greedy `.*` backs off to the LAST `@` that a digit follows, and
   * `[0-9]+` takes the whole digit run after it. `None` when it does not match
   * there. Lines hold no newline, so `.` matching anything but a newline is
   * matching anything.
   */
  function LineRevision(line: string): (r: Option<string>)
    ensures r.Some? ==> |r.value| > 0 && IsDigits(r.value)
    ensures !StartsWith(line, TrailerPrefix) ==> r.None?
  {
    if !StartsWith(line, TrailerPrefix) then None
    else
      var t := line[|TrailerPrefix|..];
      match LastAtDigit(t, |t|)
      case None => None
      case Some(p) => Some(DigitRun(t[p + 1..]))
  }

  /** The first line (from `start` on) on which the pattern matches. */
  function FirstTrailerLine(ls: seq<string>, start: nat): (r: Option<nat>)
    requires start <= |ls|
    ensures r.Some? ==> start <= r.value < |ls| && LineRevision(ls[r.value]).Some?
    ensures r.Some? ==> forall j :: start <= j < r.value ==> LineRevision(ls[j]).None?
    ensures r.None? ==> forall j :: start <= j < |ls| ==> LineRevision(ls[j]).None?
    decreases |ls| - start
  {
    if start == |ls| then None
    else if LineRevision(ls[start]).Some? then Some(start)
    else FirstTrailerLine(ls, start + 1)
  }

  /** Line `k` is the first line carrying a trailer. */
  predicate IsFirstTrailer(ls: seq<string>, k: int) {
    && 0 <= k < |ls|
    && LineRevision(ls[k]).Some?
    && forall j :: 0 <= j < k ==> LineRevision(ls[j]).None?
  }

  /** No line carries a trailer. */
  predicate NoTrailer(ls: seq<string>) {
    forall k :: 0 <= k < |ls| ==> LineRevision(ls[k]).None?
  }

  /**
   * `_ParseSvnRevisionFromGitCommitMessage`: the revision on the first line
   * of the message where the trailer pattern matches; `.group(1)` on a failed
   * search raises AttributeError.
   */
  function ParseSvnRevision(message: string): (r: Result<string, MergeError>)
    ensures r.Success? ==> |r.value| > 0 && IsDigits(r.value)
    ensures r.Failure? ==> r.error == TrailerMissing
  {
    var ls := Lines(message);
    match FirstTrailerLine(ls, 0)
    case None => Failure(TrailerMissing)
    case Some(k) => Success(LineRevision(ls[k]).value)
  }

  /**
   * The parse fails exactly when no line carries a trailer, and otherwise
   * yields the revision of the first line that does.
   */
  lemma ParseSvnRevisionIsFirstTrailer(message: string, k: int)
    ensures ParseSvnRevision(message).Failure? <==> NoTrailer(Lines(message))
    ensures IsFirstTrailer(Lines(message), k) ==>
      ParseSvnRevision(message) == Success(LineRevision(Lines(message)[k]).value)
  {
    var ls := Lines(message);
    var f := FirstTrailerLine(ls, 0);
    if f.Some? {
      assert !NoTrailer(ls) by {
        assert LineRevision(ls[f.value]).Some?;
      }
      if IsFirstTrailer(ls, k) {
        assert k == f.value;
      }
    }
  }

  /** A digit run followed by a non-digit (or nothing) is what `[0-9]+` takes. */
  lemma {:induction false} DigitRunOf(digits: string, tail: string)
    requires IsDigits(digits)
    requires |tail| == 0 || !IsDigit(tail[0])
    ensures DigitRun(digits + tail) == digits
    decreases |digits|
  {
    var t := digits + tail;
    if |digits| == 0 {
      assert t == tail;
    } else {
      assert t[0] == digits[0];
      assert t[1..] == digits[1..] + tail;
      DigitRunOf(digits[1..], tail);
      assert [digits[0]] + digits[1..] == digits;
    }
  }

  /**
   * A trailer line `git-svn-id: <url>@<rev><tail>` yields `<rev>` when the
   * tail holds no `@` and does not continue the digits; the url may contain
   * `@` itself.
   */
  lemma TrailerLineRevision(url: string, rev: string, tail: string)
    requires |rev| > 0 && IsDigits(rev)
    requires '@' !in tail && (|tail| == 0 || !IsDigit(tail[0]))
    ensures LineRevision(TrailerPrefix + url + "@" + rev + tail) == Some(rev)
  {
    var rest := rev + tail;
    assert '@' !in rest by {
      forall q | 0 <= q < |rest| ensures rest[q] != '@' {
        if q < |rev| {
          assert rest[q] == rev[q];
        } else {
          assert rest[q] == tail[q - |rev|];
        }
      }
    }
    assert rest[0] == rev[0];
    var t := url + "@" + rest;
    LastAtDigitBeforeRest(url, rest);
    var line := TrailerPrefix + url + "@" + rev + tail;
    assert line == TrailerPrefix + t;
    assert line[|TrailerPrefix|..] == t;
    DigitRunOf(rev, tail);
  }

  /** The `@` that only `@`-free text starting with a digit follows is the last such `@`. */
  lemma LastAtDigitBeforeRest(url: string, rest: string)
    requires '@' !in rest && |rest| > 0 && IsDigit(rest[0])
    ensures var t := url + "@" + rest;
      LastAtDigit(t, |t|) == Some(|url|) && t[|url| + 1..] == rest
  {
    var t := url + "@" + rest;
    var p := |url|;
    assert t[p + 1..] == rest;
    assert AtDigit(t, p);
    forall q | p < q < |t| ensures t[q] != '@' {
      assert t[q] == rest[q - p - 1];
    }
  }

  /**
   * In a message whose lines before `line` carry no trailer, the revision is
   * the one on `line`, whatever follows it.
   */
  lemma ParseFindsFirstTrailer(message: string, before: seq<string>, line: string, after: seq<string>)
    requires Lines(message) == before + [line] + after
    requires forall k :: 0 <= k < |before| ==> LineRevision(before[k]).None?
    requires LineRevision(line).Some?
    ensures ParseSvnRevision(message) == Success(LineRevision(line).value)
  {
    var ls := Lines(message);
    var n := |before|;
    assert forall k :: 0 <= k < n ==> ls[k] == before[k];
    assert ls[n] == line;
    assert IsFirstTrailer(ls, n);
    ParseSvnRevisionIsFirstTrailer(message, n);
  }

  // ---------------------------------------------------------------------------
  // _GetSVNRevisionAndSHA1

  /**
   * What the upstream side answers: `show(sha1)` is the output of
   * `git show --format=%H%n%b <sha1>`; `latestLog` that of
   * `git log -n1 --grep=git-svn-id: --format=%H%n%b <branch>`; `grepLog(rev)`
   * that of `git log --grep=git-svn-id: .*@<rev> --format=%H <branch>`, newest
   * commit first; `lkgr` the integer `GetLKGR` reads over HTTP.
   */
  datatype Upstream = Upstream(
    show: string -> string,
    latestLog: string,
    grepLog: string -> string,
    lkgr: int)

  datatype Located = Located(svnRevision: string, sha1: string)

  /** Python truthiness of an optional string argument: present and non-empty. */
  predicate Given(o: Option<string>) {
    o.Some? && o.value != ""
  }

  /** The revision searched for when neither a sha1 nor `HEAD` is given. */
  function SearchedRevision(up: Upstream, svnRevision: Option<string>): (rev: string)
    ensures svnRevision.Some? ==> rev == svnRevision.value
    ensures svnRevision.None? && up.lkgr >= 0 ==>
      |rev| > 0 && IsDigits(rev) && DigitsValue(rev) == up.lkgr && (rev[0] == '0' ==> rev == "0")
  {
    if svnRevision.Some? then svnRevision.value
    else
      DigitsValueOfNatToString(if up.lkgr >= 0 then up.lkgr else 0);
      IntToString(up.lkgr)
  }

  /**
   * `_GetSVNRevisionAndSHA1(branch, svn_revision, sha1)`. A given sha1 is
   * returned unchanged with the revision from its own message; `HEAD` takes
   * the latest trailer-carrying commit; otherwise the given revision, or the
   * LKGR when none is given, is searched for, and of several matching
   * commits the oldest (the last listed) is taken.
   */
  function GetSvnRevisionAndSha1(up: Upstream, svnRevision: Option<string>, sha1: Option<string>)
    : (r: Result<Located, MergeError>)
    ensures Given(sha1) ==>
      && (r.Success? <==> ParseSvnRevision(up.show(sha1.value)).Success?)
      && (r.Success? ==> r.value == Located(ParseSvnRevision(up.show(sha1.value)).value, sha1.value))
      && (r.Failure? ==> r.error == TrailerMissing)
    ensures !Given(sha1) && svnRevision == Some("HEAD") ==>
      && (Tokens(up.latestLog) == [] ==> r == Failure(NoLogToken))
      && (Tokens(up.latestLog) != [] ==>
            && (r.Success? <==> ParseSvnRevision(up.latestLog).Success?)
            && (r.Success? ==> r.value == Located(ParseSvnRevision(up.latestLog).value, Tokens(up.latestLog)[0]))
            && (r.Failure? ==> r.error == TrailerMissing))
    ensures !Given(sha1) && svnRevision != Some("HEAD") ==>
      var rev := SearchedRevision(up, svnRevision);
      var output := up.grepLog(rev);
      && (output == "" ==> r == Failure(RevisionNotFound(rev)))
      && (output != "" && Tokens(output) == [] ==> r == Failure(NoLogToken))
      && (Tokens(output) != [] ==> r == Success(Located(rev, Tokens(output)[|Tokens(output)| - 1])))
  {
    if Given(sha1) then
      match ParseSvnRevision(up.show(sha1.value))
      case Failure(e) => Failure(e)
      case Success(rev) => Success(Located(rev, sha1.value))
    else if svnRevision == Some("HEAD") then
      var commit := up.latestLog;
      var tokens := Tokens(commit);
      if |tokens| == 0 then Failure(NoLogToken)
      else
        match ParseSvnRevision(commit)
        case Failure(e) => Failure(e)
        case Success(rev) => Success(Located(rev, tokens[0]))
    else
      var rev := SearchedRevision(up, svnRevision);
      OldestListed(rev, up.grepLog(rev))
  }

  /** The revision paired with the last commit hash a search listed. */
  function OldestListed(rev: string, output: string): (r: Result<Located, MergeError>)
    ensures output == "" ==> r == Failure(RevisionNotFound(rev))
    ensures output != "" ==> (r.Failure? <==> Tokens(output) == []) && (r.Failure? ==> r.error == NoLogToken)
    ensures r.Success? ==>
      && r.value.svnRevision == rev && IsWord(r.value.sha1)
      && Tokens(output) != [] && r.value.sha1 == Tokens(output)[|Tokens(output)| - 1]
  {
    if output == "" then Failure(RevisionNotFound(rev))
    else
      var tokens := Tokens(output);
      if |tokens| == 0 then Failure(NoLogToken)
      else Success(Located(rev, tokens[|tokens| - 1]))
  }

  /**
   * When the search lists the matching commits' hashes newest first, the
   * result is the oldest of them; with no match it is the recoverable
   * not-found error. Of a revert/reapply pair with the same trailer, the
   * earlier commit wins.
   */
  lemma SearchSelectsOldestMatch(up: Upstream, svnRevision: Option<string>, sha1: Option<string>, hashes: seq<string>)
    requires !Given(sha1) && svnRevision != Some("HEAD")
    requires up.grepLog(SearchedRevision(up, svnRevision)) == LogOutput(hashes)
    requires forall k :: 0 <= k < |hashes| ==> IsWord(hashes[k])
    ensures hashes == [] ==>
      GetSvnRevisionAndSha1(up, svnRevision, sha1) == Failure(RevisionNotFound(SearchedRevision(up, svnRevision)))
    ensures hashes != [] ==>
      GetSvnRevisionAndSha1(up, svnRevision, sha1) ==
        Success(Located(SearchedRevision(up, svnRevision), hashes[|hashes| - 1]))
  {
    OldestListedOfLog(SearchedRevision(up, svnRevision), hashes);
  }

  lemma OldestListedOfLog(rev: string, hashes: seq<string>)
    requires forall k :: 0 <= k < |hashes| ==> IsWord(hashes[k])
    ensures hashes == [] ==> OldestListed(rev, LogOutput(hashes)) == Failure(RevisionNotFound(rev))
    ensures hashes != [] ==> OldestListed(rev, LogOutput(hashes)) == Success(Located(rev, hashes[|hashes| - 1]))
  {
    TokensOfLogOutput(hashes);
    if hashes != [] {
      assert |Tokens(LogOutput(hashes))| > 0;
      assert LogOutput(hashes) != "";
    }
  }

  /**
   * Without `--svn_revision` or `--sha1` the LKGR is searched for, and a
   * located commit carries the LKGR's decimal form as its revision.
   */
  lemma LkgrIsSearched(up: Upstream)
    ensures var r := GetSvnRevisionAndSha1(up, None, None);
      && (up.grepLog(IntToString(up.lkgr)) == "" ==> r == Failure(RevisionNotFound(IntToString(up.lkgr))))
      && (r.Success? ==> r.value.svnRevision == IntToString(up.lkgr))
      && (r.Success? && up.lkgr >= 0 ==> IsDigits(r.value.svnRevision) && DigitsValue(r.value.svnRevision) == up.lkgr)
  {
  }

  /** `if sha1:` treats an empty `--sha1` exactly as a missing one. */
  lemma EmptySha1IsAbsent(up: Upstream, svnRevision: Option<string>)
    ensures !Given(Some(""))
    ensures GetSvnRevisionAndSha1(up, svnRevision, Some("")) == GetSvnRevisionAndSha1(up, svnRevision, None)
  {
  }

  /** A word (such as a commit hash) is never a trailer line. */
  lemma WordIsNotTrailer(h: string)
    requires IsWord(h)
    ensures LineRevision(h).None?
  {
    if |h| >= |TrailerPrefix| {
      assert !IsSpace(h[11]);
    }
  }

  /**
   * For `HEAD` the log prints the latest commit's hash on its first line and
   * then its body: the result pairs that hash with the revision in the body.
   */
  lemma HeadSelectsLatestCommit(up: Upstream, hash: string, body: string)
    requires IsWord(hash) && up.latestLog == hash + "\n" + body
    ensures GetSvnRevisionAndSha1(up, Some("HEAD"), None) ==
      match ParseSvnRevision(body)
      case Failure(e) => Failure(e)
      case Success(rev) => Success(Located(rev, hash))
  {
    TokensOfWordLine(hash, body);
    assert '\n' !in hash by {
      assert forall i :: 0 <= i < |hash| ==> !IsSpace(hash[i]);
    }
    LinesOfLineAndRest(hash, body);
    WordIsNotTrailer(hash);
    ParseSkipsLeadingLine(hash, body);
  }

  /** A first line without a trailer does not change what the message yields. */
  lemma ParseSkipsLeadingLine(first: string, rest: string)
    requires '\n' !in first && LineRevision(first).None?
    ensures ParseSvnRevision(first + "\n" + rest) == ParseSvnRevision(rest)
  {
    var msg := first + "\n" + rest;
    LinesOfLineAndRest(first, rest);
    var ls := Lines(msg);
    var rs := Lines(rest);
    assert ls == [first] + rs;
    assert forall k :: 0 <= k < |rs| ==> ls[k + 1] == rs[k];
    var g := FirstTrailerLine(rs, 0);
    ParseSvnRevisionIsFirstTrailer(rest, if g.Some? then g.value else 0);
    if g.Some? {
      assert IsFirstTrailer(ls, g.value + 1) by {
        forall j | 0 <= j < g.value + 1 ensures LineRevision(ls[j]).None? {
          if j > 0 { assert ls[j] == rs[j - 1]; }
        }
      }
      ParseSvnRevisionIsFirstTrailer(msg, g.value + 1);
    } else {
      assert NoTrailer(ls) by {
        forall j | 0 <= j < |ls| ensures LineRevision(ls[j]).None? {
          if j > 0 { assert ls[j] == rs[j - 1]; }
        }
      }
      ParseSvnRevisionIsFirstTrailer(msg, 0);
    }
  }

  /**
   * `GetHEAD`: `int()` of the revision that `HEAD` resolves to. It succeeds
   * exactly when the latest log names a commit and carries a trailer, and
   * then reads the first trailer of that log text.
   */
  function GetHead(up: Upstream): (r: Result<nat, MergeError>)
    ensures r.Success? <==> Tokens(up.latestLog) != [] && ParseSvnRevision(up.latestLog).Success?
    ensures r.Success? ==> r.value == DigitsValue(ParseSvnRevision(up.latestLog).value)
    ensures Tokens(up.latestLog) == [] ==> r == Failure(NoLogToken)
    ensures Tokens(up.latestLog) != [] && r.Failure? ==> r == Failure(TrailerMissing)
  {
    match GetSvnRevisionAndSha1(up, Some("HEAD"), None)
    case Failure(e) => Failure(e)
    case Success(loc) => Success(DigitsValue(loc.svnRevision))
  }

  /**
   * When the latest trailer names revision `n` in its decimal form, `GetHEAD`
   * returns `n`.
   */
  lemma GetHeadReadsTrailer(up: Upstream, hash: string, body: string, n: nat)
    requires IsWord(hash) && up.latestLog == hash + "\n" + body
    requires ParseSvnRevision(body) == Success(NatToString(n))
    ensures GetHead(up) == Success(n)
  {
    HeadSelectsLatestCommit(up, hash, body);
    DigitsValueOfNatToString(n);
  }
}
