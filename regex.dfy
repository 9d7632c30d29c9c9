/**
 * Python's `re.sub` for the patterns the crawler uses.
 *
 * None of those patterns can match the empty string, so `re.sub` scans the
 * text left to right: where the pattern matches, it emits the replacement and
 * resumes after the match; elsewhere it copies one character and moves on.
 * A pattern is given as a matcher: the function telling, for a suffix of the
 * text, whether the pattern matches at its start, how long the match is and
 * what replaces it. Each matcher in this project is written out by hand from
 * its regular expression (greedy and lazy repetition resolved by argument in
 * the matcher's comment).
 */
module Regex {
  import opened Wrappers
  import opened Strings

  /** A match at the start of a text: its length and its replacement. */
  datatype Match = Match(len: nat, replacement: string)

  /** The matcher reports a match that consumes at least one character of `t`. */
  predicate Hit(matchAt: string -> Option<Match>, t: string) {
    matchAt(t).Some? && 0 < matchAt(t).value.len <= |t|
  }

  /** `re.sub(pattern, repl, s)`, `matchAt` being the pattern (with `repl`) at one position. */
  function Sub(s: string, matchAt: string -> Option<Match>): string
    decreases |s|
  {
    if s == [] then []
    else if Hit(matchAt, s) then
      matchAt(s).value.replacement + Sub(s[matchAt(s).value.len..], matchAt)
    else [s[0]] + Sub(s[1..], matchAt)
  }

  /** Text with no match anywhere passes through unchanged. */
  lemma {:induction false} SubNoHit(s: string, matchAt: string -> Option<Match>)
    requires forall i :: 0 <= i < |s| ==> !Hit(matchAt, s[i..])
    ensures Sub(s, matchAt) == s
    decreases |s|
  {
    if s != [] {
      assert s[0..] == s;
      assert forall i :: 0 <= i < |s| - 1 ==> s[1..][i..] == s[i + 1..];
      SubNoHit(s[1..], matchAt);
    }
  }

  /** Where a match starts, its replacement is emitted and scanning resumes after it. */
  lemma SubReplaces(s: string, matchAt: string -> Option<Match>)
    requires Hit(matchAt, s)
    ensures Sub(s, matchAt) == matchAt(s).value.replacement + Sub(s[matchAt(s).value.len..], matchAt)
  {
  }

  /** Where no match starts, one character is copied. */
  lemma SubCopies(s: string, matchAt: string -> Option<Match>)
    requires s != [] && !Hit(matchAt, s)
    ensures Sub(s, matchAt) == [s[0]] + Sub(s[1..], matchAt)
  {
  }

  /** A prefix in which no match starts is copied, and scanning resumes after it. */
  lemma {:induction false} SubSkip(x: string, y: string, matchAt: string -> Option<Match>)
    requires forall i :: 0 <= i < |x| ==> !Hit(matchAt, (x + y)[i..])
    ensures Sub(x + y, matchAt) == x + Sub(y, matchAt)
    decreases |x|
  {
    if x == [] {
      assert x + y == y;
    } else {
      var s := x + y;
      var tail := x[1..] + y;
      assert s[0..] == s;
      SubCopies(s, matchAt);
      assert s[1..] == tail;
      forall i | 0 <= i < |x| - 1 ensures !Hit(matchAt, tail[i..]) {
        assert tail[i..] == s[i + 1..];
      }
      SubSkip(x[1..], y, matchAt);
      HeadTailAppend(x, Sub(y, matchAt));
    }
  }

  /** `re.sub(r'[class]+', rep, s)`: every maximal run of `inRun` characters becomes `rep`. */
  function CollapseRuns(s: string, inRun: char -> bool, rep: char): (r: string)
    ensures r == [] <==> s == []
    ensures r != [] ==> if inRun(s[0]) then r[0] == rep else r[0] == s[0]
    ensures forall i :: 0 <= i < |r| ==> inRun(r[i]) ==> r[i] == rep
    ensures forall c :: c in r ==> c in s || c == rep
    ensures inRun(rep) ==> forall i :: 0 <= i < |r| - 1 ==> !(r[i] == rep && r[i + 1] == rep)
    decreases |s|
  {
    if s == [] then []
    else if inRun(s[0]) then
      var rest := LStripBy(s, inRun);
      [rep] + CollapseRuns(rest, inRun, rep)
    else [s[0]] + CollapseRuns(s[1..], inRun, rep)
  }

  /** Text without a run character is left alone. */
  lemma {:induction false} CollapseRunsNone(s: string, inRun: char -> bool, rep: char)
    requires forall i :: 0 <= i < |s| ==> !inRun(s[i])
    ensures CollapseRuns(s, inRun, rep) == s
    decreases |s|
  {
    if s != [] {
      assert forall i :: 0 <= i < |s| - 1 ==> s[1..][i] == s[i + 1];
      CollapseRunsNone(s[1..], inRun, rep);
      assert s == [s[0]] + s[1..];
    }
  }

  /** Text whose runs are single `rep` characters is left alone. */
  lemma {:induction false} CollapseRunsSingle(s: string, inRun: char -> bool, rep: char)
    requires forall i :: 0 <= i < |s| ==> inRun(s[i]) ==> s[i] == rep
    requires forall i :: 0 <= i < |s| - 1 ==> !(inRun(s[i]) && inRun(s[i + 1]))
    ensures CollapseRuns(s, inRun, rep) == s
    decreases |s|
  {
    if s != [] {
      var tail := s[1..];
      assert forall i :: 0 <= i < |tail| ==> tail[i] == s[i + 1];
      CollapseRunsSingle(tail, inRun, rep);
      assert s == [s[0]] + tail;
      if inRun(s[0]) {
        assert tail == [] || !inRun(tail[0]);
        assert LStripBy(s, inRun) == tail;
        assert CollapseRuns(s, inRun, rep) == [rep] + CollapseRuns(tail, inRun, rep);
      } else {
        assert CollapseRuns(s, inRun, rep) == [s[0]] + CollapseRuns(tail, inRun, rep);
      }
    }
  }

  /** The number of leading newlines of `t`. */
  function NewlineRun(t: string): (k: nat)
    ensures k <= |t|
    ensures forall i :: 0 <= i < k ==> t[i] == '\n'
    ensures k < |t| ==> t[k] != '\n'
    decreases |t|
  {
    if t != [] && t[0] == '\n' then 1 + NewlineRun(t[1..]) else 0
  }

  /** `\n{3,}` replaced by `\n\n`: the greedy run of three or more newlines. */
  function BlankLinesAt(t: string): Option<Match> {
    var k := NewlineRun(t);
    if k >= 3 then Some(Match(k, "\n\n")) else None
  }

  /** Without three newlines in a row, `\n{3,}` changes nothing. */
  lemma BlankLinesAbsent(text: string)
    requires !Contains(text, "\n\n\n")
    ensures Sub(text, BlankLinesAt) == text
  {
    ContainsIff(text, "\n\n\n");
    forall i | 0 <= i < |text| ensures !Hit(BlankLinesAt, text[i..]) {
      if i + 3 <= |text| {
        assert text[i..][..3] == [text[i], text[i + 1], text[i + 2]];
      }
    }
    SubNoHit(text, BlankLinesAt);
  }

  /** The pattern `\n{3,}` never leaves three newlines in a row. */
  lemma {:induction false} BlankLinesCollapsed(s: string)
    ensures !Contains(Sub(s, BlankLinesAt), "\n\n\n")
    decreases |s|
  {
    if s != [] {
      if Hit(BlankLinesAt, s) {
        var k := NewlineRun(s);
        BlankLinesCollapsed(s[k..]);
        NoNewlineAhead(s[k..]);
        NoTripleAfterPair(Sub(s[k..], BlankLinesAt));
      } else {
        BlankLinesCollapsed(s[1..]);
        NewlinesAhead(s[1..]);
        if s[0] == '\n' {
          assert NewlineRun(s) == 1 + NewlineRun(s[1..]);
        }
        NoTripleAfterChar(s[0], Sub(s[1..], BlankLinesAt));
      }
    }
  }

  /** Two newlines before a text that neither holds three nor starts with one make no three. */
  lemma NoTripleAfterPair(rest: string)
    requires !Contains(rest, "\n\n\n") && (rest == [] || rest[0] != '\n')
    ensures !Contains("\n\n" + rest, "\n\n\n")
  {
    var out := "\n\n" + rest;
    ContainsIff(rest, "\n\n\n");
    ContainsIff(out, "\n\n\n");
    forall i | 0 <= i <= |out| ensures !StartsWith(out[i..], "\n\n\n") {
      if i >= 2 {
        assert out[i..] == rest[i - 2..];
      } else if i + 3 <= |out| {
        assert out[i..][..3][2 - i] == rest[0];
      }
    }
  }

  /** One character before a text without three newlines makes three only with two after it. */
  lemma NoTripleAfterChar(c: char, rest: string)
    requires !Contains(rest, "\n\n\n")
    requires c == '\n' && |rest| >= 2 ==> !(rest[0] == '\n' && rest[1] == '\n')
    ensures !Contains([c] + rest, "\n\n\n")
  {
    var out := [c] + rest;
    ContainsIff(rest, "\n\n\n");
    ContainsIff(out, "\n\n\n");
    forall i | 0 <= i <= |out| ensures !StartsWith(out[i..], "\n\n\n") {
      if i >= 1 {
        assert out[i..] == rest[i - 1..];
      } else if |out| >= 3 {
        assert out[0..][..3] == [c, rest[0], rest[1]];
      }
    }
  }

  /** After a maximal newline run the output does not start with a newline. */
  lemma NoNewlineAhead(t: string)
    requires t == [] || t[0] != '\n'
    ensures var out := Sub(t, BlankLinesAt); out == [] || out[0] != '\n'
  {
  }

  /** The output starts with two newlines only if the input starts with two it could not collapse. */
  lemma NewlinesAhead(t: string)
    ensures var out := Sub(t, BlankLinesAt);
      |out| >= 2 && out[0] == '\n' && out[1] == '\n' ==> NewlineRun(t) >= 2
  {
    var out := Sub(t, BlankLinesAt);
    if t != [] && !Hit(BlankLinesAt, t) && t[0] == '\n' && |t| > 1 {
      assert out == [t[0]] + Sub(t[1..], BlankLinesAt);
      if t[1] != '\n' {
        NoNewlineAhead(t[1..]);
      }
    }
  }
}
