/**
 * Decisions taken on what git reports about the working tree:
 * `_ModifiedFilesInIndex` over the text of `git status --porcelain`, and the
 * one-line `build/util/LASTCHANGE` file `_GenerateLastChange` writes.
 */
module Index {
  import opened Wrappers
  import opened Text

  /** The index-side status letters that mean a staged change: modified, added, deleted, renamed, copied. */
  predicate IsChangeLetter(c: char) {
    c == 'M' || c == 'A' || c == 'D' || c == 'R' || c == 'C'
  }

  /** One porcelain status line reporting a staged change. */
  predicate StagedChange(line: string) {
    |line| > 0 && IsChangeLetter(line[0])
  }

  /** Some line of `ls`, from index `start` on, reports a staged change. */
  predicate AnyStagedFrom(ls: seq<string>, start: nat) {
    exists k :: start <= k < |ls| && StagedChange(ls[k])
  }

  /**
   * Position `i` of `s` is where `^[MADRC]` matches: a change letter at a
   * line start, which is the very start only when `atLineStart`.
   */
  predicate MatchesAt(s: string, atLineStart: bool, i: int) {
    0 <= i < |s| && IsChangeLetter(s[i]) && (if i == 0 then atLineStart else s[i - 1] == '\n')
  }

  /**
   * How `re.search(r'^[MADRC]', status, flags=re.MULTILINE)` scans: a change
   * letter at the very start (when `atLineStart`) or right after a newline.
   */
  function ScanForChange(s: string, atLineStart: bool): (found: bool)
    ensures found <==> exists i :: MatchesAt(s, atLineStart, i)
    decreases |s|
  {
    if |s| == 0 then false
    else
      var rest := ScanForChange(s[1..], s[0] == '\n');
      assert rest <==> exists i :: MatchesAt(s, atLineStart, i) && i > 0 by {
        if rest {
          var j :| MatchesAt(s[1..], s[0] == '\n', j);
          assert MatchesAt(s, atLineStart, j + 1);
        }
        forall i | MatchesAt(s, atLineStart, i) && i > 0 ensures rest {
          assert MatchesAt(s[1..], s[0] == '\n', i - 1);
        }
      }
      assert MatchesAt(s, atLineStart, 0) <==> atLineStart && IsChangeLetter(s[0]);
      (atLineStart && IsChangeLetter(s[0])) || rest
  }

  /**
   * The scan finds a letter exactly where a line of the text begins with one;
   * when the scan does not start at a line start, the first line is skipped.
   */
  lemma {:induction false} ScanForChangeIsPerLine(s: string, atLineStart: bool)
    ensures ScanForChange(s, atLineStart) <==>
      (atLineStart && StagedChange(Lines(s)[0])) || AnyStagedFrom(Lines(s), 1)
    decreases |s|
  {
    if |s| > 0 {
      var ls := Lines(s);
      var rest := Lines(s[1..]);
      ScanForChangeIsPerLine(s[1..], s[0] == '\n');
      if s[0] == '\n' {
        assert ls == [""] + rest;
        assert AnyStagedFrom(ls, 1) <==> StagedChange(rest[0]) || AnyStagedFrom(rest, 1) by {
          assert forall k :: 0 <= k < |rest| ==> ls[k + 1] == rest[k];
          if AnyStagedFrom(ls, 1) {
            var k :| 1 <= k < |ls| && StagedChange(ls[k]);
            assert StagedChange(rest[k - 1]);
            if k > 1 { assert AnyStagedFrom(rest, 1); }
          }
          if AnyStagedFrom(rest, 1) {
            var k :| 1 <= k < |rest| && StagedChange(rest[k]);
            assert StagedChange(ls[k + 1]);
          }
          if StagedChange(rest[0]) {
            assert StagedChange(ls[1]);
          }
        }
      } else {
        assert ls == [[s[0]] + rest[0]] + rest[1..];
        assert ls[0][0] == s[0];
        assert AnyStagedFrom(ls, 1) <==> AnyStagedFrom(rest, 1) by {
          assert forall k :: 1 <= k < |rest| ==> ls[k] == rest[k];
          if AnyStagedFrom(ls, 1) {
            var k :| 1 <= k < |ls| && StagedChange(ls[k]);
            assert StagedChange(rest[k]);
          }
          if AnyStagedFrom(rest, 1) {
            var k :| 1 <= k < |rest| && StagedChange(rest[k]);
            assert StagedChange(ls[k]);
          }
        }
      }
    }
  }

  /**
   * `_ModifiedFilesInIndex`, given the porcelain status text: true exactly
   * when some line of it begins with M, A, D, R or C.
   */
  function ModifiedFilesInIndex(status: string): (modified: bool)
    ensures modified <==> AnyStagedFrom(Lines(status), 0)
  {
    ScanForChangeIsPerLine(status, true);
    ScanForChange(status, true)
  }

  /** A status made of the given lines reports a change iff one of those lines does. */
  lemma ModifiedFilesInIndexOfLines(ls: seq<string>)
    requires |ls| >= 1
    requires forall k :: 0 <= k < |ls| ==> '\n' !in ls[k]
    ensures ModifiedFilesInIndex(JoinLines(ls)) <==> exists k :: 0 <= k < |ls| && StagedChange(ls[k])
  {
    LinesOfJoinLines(ls);
  }

  // ---------------------------------------------------------------------------
  // LASTCHANGE

  const LastChangePrefix: string := "LASTCHANGE="

  /** The text `_GenerateLastChange` writes: `LASTCHANGE=<rev>` and a newline. */
  function LastChangeContents(svnRevision: string): (text: string)
    ensures StartsWith(text, LastChangePrefix) && text[|text| - 1] == '\n'
    ensures |text| == |LastChangePrefix| + |svnRevision| + 1
  {
    LastChangePrefix + svnRevision + "\n"
  }

  /** Reads the revision back out of a LASTCHANGE file. */
  function LastChangeRevision(text: string): Option<string> {
    if |text| > |LastChangePrefix| && StartsWith(text, LastChangePrefix) && text[|text| - 1] == '\n'
    then Some(text[|LastChangePrefix|..|text| - 1])
    else None
  }

  /** The file records the revision exactly; a single-line revision gives a one-line file. */
  lemma LastChangeRoundTrip(svnRevision: string)
    ensures LastChangeRevision(LastChangeContents(svnRevision)) == Some(svnRevision)
    ensures '\n' !in svnRevision ==> Lines(LastChangeContents(svnRevision)) == [LastChangePrefix + svnRevision, ""]
  {
    var text := LastChangeContents(svnRevision);
    assert text[|LastChangePrefix|..|text| - 1] == svnRevision;
    if '\n' !in svnRevision {
      var line := LastChangePrefix + svnRevision;
      assert '\n' !in line by {
        assert forall i :: 0 <= i < |line| ==> line[i] == (if i < |LastChangePrefix| then LastChangePrefix[i] else svnRevision[i - |LastChangePrefix|]);
      }
      assert text == line + "\n" + "";
      LinesOfLineAndRest(line, "");
    }
  }
}
