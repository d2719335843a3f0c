/**
 * The Python string operations the script relies on, stated on `seq<char>`:
 * line structure as seen by a MULTILINE regex (`^` at the start and after each
 * newline, `.` never matching a newline), `str.split()` with no argument, and
 * decimal formatting and parsing of integers (`'%s' % n`, `int(s)`).
 */
module Text {

  /** Python 2 `str.isspace()` for one character: space, tab, LF, VT, FF, CR. */
  predicate IsSpace(c: char) {
    c == ' ' || 9 <= c as int <= 13
  }

  predicate IsDigit(c: char) {
    '0' <= c <= '9'
  }

  predicate IsDigits(s: string) {
    forall i :: 0 <= i < |s| ==> IsDigit(s[i])
  }

  /** A token that `str.split()` can return: non-empty and free of whitespace. */
  predicate IsWord(s: string) {
    |s| > 0 && forall i :: 0 <= i < |s| ==> !IsSpace(s[i])
  }

  predicate StartsWith(s: string, prefix: string) {
    |prefix| <= |s| && s[..|prefix|] == prefix
  }

  // ---------------------------------------------------------------------------
  // Lines

  /** The text split at every newline; the pieces a MULTILINE `^` starts. */
  function Lines(s: string): (ls: seq<string>)
    ensures |ls| >= 1
    ensures forall k :: 0 <= k < |ls| ==> '\n' !in ls[k]
    decreases |s|
  {
    if |s| == 0 then [""]
    else
      var rest := Lines(s[1..]);
      if s[0] == '\n' then [""] + rest
      else [[s[0]] + rest[0]] + rest[1..]
  }

  /** `'\n'.join(ls)`. */
  function JoinLines(ls: seq<string>): string
    requires |ls| >= 1
    decreases |ls|
  {
    if |ls| == 1 then ls[0] else ls[0] + "\n" + JoinLines(ls[1..])
  }

  /** Joining the lines of a text gives the text back. */
  lemma {:induction false} JoinLinesOfLines(s: string)
    ensures JoinLines(Lines(s)) == s
    decreases |s|
  {
    if |s| > 0 {
      var rest := Lines(s[1..]);
      JoinLinesOfLines(s[1..]);
      if s[0] == '\n' {
        assert Lines(s) == [""] + rest;
        assert Lines(s)[1..] == rest;
        assert s == "" + "\n" + s[1..];
      } else {
        var ls := Lines(s);
        assert ls == [[s[0]] + rest[0]] + rest[1..];
        if |rest| == 1 {
          assert s == [s[0]] + s[1..];
        } else {
          assert ls[1..] == rest[1..];
          assert JoinLines(rest) == rest[0] + "\n" + JoinLines(rest[1..]);
          assert s == [s[0]] + s[1..];
        }
      }
    }
  }

  /** A newline-free line followed by a newline is the first line. */
  lemma {:induction false} LinesOfLineAndRest(a: string, b: string)
    requires '\n' !in a
    ensures Lines(a + "\n" + b) == [a] + Lines(b)
    decreases |a|
  {
    var s := a + "\n" + b;
    if |a| == 0 {
      assert s == "\n" + b;
      assert s[1..] == b;
    } else {
      var a' := a[1..];
      assert '\n' !in a' by {
        assert forall i :: 0 <= i < |a'| ==> a'[i] == a[i + 1];
      }
      assert a[0] in a;
      assert s[0] == a[0];
      assert s[1..] == a' + "\n" + b;
      LinesOfLineAndRest(a', b);
      assert [a[0]] + a' == a;
    }
  }

  /** Splitting lines that hold no newline, once joined, gives them back. */
  lemma {:induction false} LinesOfJoinLines(ls: seq<string>)
    requires |ls| >= 1
    requires forall k :: 0 <= k < |ls| ==> '\n' !in ls[k]
    ensures Lines(JoinLines(ls)) == ls
    decreases |ls|
  {
    if |ls| == 1 {
      LinesOfNewlineFree(ls[0]);
    } else {
      LinesOfJoinLines(ls[1..]);
      LinesOfLineAndRest(ls[0], JoinLines(ls[1..]));
      assert [ls[0]] + ls[1..] == ls;
    }
  }

  /** A text without a newline is one line. */
  lemma {:induction false} LinesOfNewlineFree(s: string)
    requires '\n' !in s
    ensures Lines(s) == [s]
    decreases |s|
  {
    if |s| > 0 {
      assert '\n' !in s[1..] by {
        assert forall i :: 0 <= i < |s[1..]| ==> s[1..][i] == s[i + 1];
      }
      LinesOfNewlineFree(s[1..]);
      assert s[0] in s;
      assert [s[0]] + s[1..] == s;
    }
  }

  // ---------------------------------------------------------------------------
  // Whitespace tokens: `str.split()` with no separator

  /** The maximal runs of non-whitespace characters, in order. */
  function Tokens(s: string): (ts: seq<string>)
    ensures forall k :: 0 <= k < |ts| ==> IsWord(ts[k])
    ensures |s| > 0 && !IsSpace(s[0]) ==> |ts| > 0 && |ts[0]| > 0 && ts[0][0] == s[0]
    ensures (forall i :: 0 <= i < |s| ==> IsSpace(s[i])) ==> ts == []
    decreases |s|
  {
    if |s| == 0 then []
    else if IsSpace(s[0]) then Tokens(s[1..])
    else
      var rest := Tokens(s[1..]);
      if |s| > 1 && !IsSpace(s[1]) then [[s[0]] + rest[0]] + rest[1..]
      else [[s[0]]] + rest
  }

  /** A word followed by a newline contributes exactly itself as the first token. */
  lemma {:induction false} TokensOfWordLine(h: string, rest: string)
    requires IsWord(h)
    ensures Tokens(h + "\n" + rest) == [h] + Tokens(rest)
    decreases |h|
  {
    var s := h + "\n" + rest;
    assert s[0] == h[0];
    if |h| == 1 {
      assert s[1] == '\n';
      assert s[1..] == "\n" + rest;
      assert ("\n" + rest)[1..] == rest;
      assert [h[0]] == h;
    } else {
      var h' := h[1..];
      assert IsWord(h') by {
        assert forall i :: 0 <= i < |h'| ==> h'[i] == h[i + 1];
      }
      assert s[1..] == h' + "\n" + rest;
      assert s[1] == h[1];
      TokensOfWordLine(h', rest);
      assert [h[0]] + h' == h;
    }
  }

  /** The output of `git log --format=%H`: one line per commit hash. */
  function LogOutput(hashes: seq<string>): string
    decreases |hashes|
  {
    if hashes == [] then "" else hashes[0] + "\n" + LogOutput(hashes[1..])
  }

  /** `split()` of a hash-per-line listing recovers the hashes, in order. */
  lemma {:induction false} TokensOfLogOutput(hashes: seq<string>)
    requires forall k :: 0 <= k < |hashes| ==> IsWord(hashes[k])
    ensures Tokens(LogOutput(hashes)) == hashes
    decreases |hashes|
  {
    if hashes != [] {
      TokensOfWordLine(hashes[0], LogOutput(hashes[1..]));
      TokensOfLogOutput(hashes[1..]);
    }
  }

  // ---------------------------------------------------------------------------
  // Decimal numbers

  function DigitChar(d: nat): (c: char)
    requires d < 10
    ensures IsDigit(c) && (c == '0' <==> d == 0)
  {
    ['0', '1', '2', '3', '4', '5', '6', '7', '8', '9'][d]
  }

  function DigitValue(c: char): (d: nat)
    requires IsDigit(c)
    ensures d < 10
  {
    c as int - '0' as int
  }

  /** `'%s' % n` for a natural number. */
  function NatToString(n: nat): (s: string)
    ensures |s| > 0 && IsDigits(s)
    ensures s[0] == '0' ==> n == 0 && |s| == 1
    decreases n
  {
    if n < 10 then [DigitChar(n)] else NatToString(n / 10) + [DigitChar(n % 10)]
  }

  /** `'%s' % i` for any integer. */
  function IntToString(i: int): string {
    if i < 0 then "-" + NatToString(-i) else NatToString(i)
  }

  /** `int(s)` for a string of decimal digits. */
  function DigitsValue(s: string): nat
    requires IsDigits(s)
    decreases |s|
  {
    if |s| == 0 then 0 else DigitsValue(s[..|s| - 1]) * 10 + DigitValue(s[|s| - 1])
  }

  /** Parsing the decimal form of a number gives the number back. */
  lemma {:induction false} DigitsValueOfNatToString(n: nat)
    ensures DigitsValue(NatToString(n)) == n
    decreases n
  {
    var s := NatToString(n);
    if n < 10 {
      assert s[..0] == [];
      assert DigitValue(DigitChar(n)) == n;
    } else {
      DigitsValueOfNatToString(n / 10);
      assert s[..|s| - 1] == NatToString(n / 10);
      assert DigitValue(DigitChar(n % 10)) == n % 10;
    }
  }
}
