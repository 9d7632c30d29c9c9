/**
 * The markdown post-processing of `websum.py`: `clean_markdown`,
 * `format_text_content`, `format_code_block` and the line-scanning
 * `process_markdown_content` (the one `websum.py` defines, which shadows the
 * one it imports from `modules/utils.py`).
 */
module Markdown {
  import opened Wrappers
  import opened Strings
  import opened Regex
  import opened CodeBlock

  // ---------------------------------------------------------------------------
  // clean_markdown
  // ---------------------------------------------------------------------------

  predicate IsBlank(c: char) { c == ' ' || c == '\t' }

  /** `[ \t]+\n` replaced by `\n`: the greedy run of blanks must end at a newline. */
  function TrailingBlanksAt(t: string): Option<Match> {
    var k := |t| - |LStripBy(t, IsBlank)|;
    if k > 0 && k < |t| && t[k] == '\n' then Some(Match(k + 1, "\n")) else None
  }

  /**
   * `(\n#{1,6}.*?)\n([^\n])` replaced by `\1\n\n\2`. Without `re.DOTALL` the lazy
   * `.*?` cannot cross a newline, so the first group runs from the newline and
   * hash to the next newline, and the match needs a non-newline after it; fewer
   * hashes only move characters into `.*?`, so backtracking does not change the
   * outcome. The match consumes that following character.
   */
  function HeaderGapAt(t: string): Option<Match> {
    if |t| >= 2 && t[0] == '\n' && t[1] == '#' then
      match FindFirst(t[1..], "\n")
      case Some(k) =>
        var e := k + 1;
        if e + 1 < |t| && t[e + 1] != '\n' then Some(Match(e + 2, t[..e] + "\n\n" + [t[e + 1]])) else None
      case None => None
    else None
  }

  /** `clean_markdown(markdown)` of `websum.py`. */
  function CleanMarkdown(markdown: string): (r: string)
    ensures r == [] || (!IsSpace(r[0]) && !IsSpace(r[|r| - 1]))
  {
    if markdown == [] then []
    else
      var unixLines := ReplaceAll(markdown, "\r\n", "\n");
      var collapsed := Sub(unixLines, BlankLinesAt);
      var trimmed := Sub(collapsed, TrailingBlanksAt);
      var spaced := Sub(trimmed, HeaderGapAt);
      Strip(spaced)
  }

  /** A single line is only stripped. */
  lemma CleanMarkdownOneLine(markdown: string)
    requires '\n' !in markdown
    ensures CleanMarkdown(markdown) == Strip(markdown)
  {
    if markdown != [] {
      NotContainsMissingChar(markdown, "\r\n", 1);
      ReplaceAbsent(markdown, "\r\n", "\n");
      NotContainsMissingChar(markdown, "\n\n\n", 0);
      BlankLinesAbsent(markdown);
      forall i | 0 <= i < |markdown| ensures !Hit(TrailingBlanksAt, markdown[i..]) {
        var t := markdown[i..];
        var k := |t| - |LStripBy(t, IsBlank)|;
        if k < |t| {
          assert t[k] == markdown[i + k];
        }
      }
      SubNoHit(markdown, TrailingBlanksAt);
      forall i | 0 <= i < |markdown| ensures !Hit(HeaderGapAt, markdown[i..]) {
        assert markdown[i..][0] == markdown[i];
      }
      SubNoHit(markdown, HeaderGapAt);
    }
  }

  /** A header line followed by a non-empty line gets a blank line after it; scanning
      resumes after the first character of that next line. */
  lemma HeaderSpaced(header: string, c: char, rest: string)
    requires header != [] && header[0] == '#' && '\n' !in header && c != '\n'
    ensures var t := "\n" + header + "\n" + [c] + rest;
      Sub(t, HeaderGapAt) == "\n" + header + "\n\n" + [c] + Sub(rest, HeaderGapAt)
  {
    var t := "\n" + header + "\n" + [c] + rest;
    assert t[1..] == header + "\n" + ([c] + rest);
    NotContainsChar(header, '\n');
    FindFirstAfter(header, "\n", [c] + rest);
    var e := |header| + 1;
    assert t[..e] == "\n" + header;
    assert t[e + 1] == c;
    assert t[e + 2..] == rest;
  }

  /** A header line followed by an empty line is left alone. */
  lemma HeaderBeforeBlankLine(header: string, rest: string)
    requires header != [] && header[0] == '#' && '\n' !in header
    ensures HeaderGapAt("\n" + header + "\n\n" + rest).None?
  {
    var t := "\n" + header + "\n\n" + rest;
    assert t[1..] == header + "\n" + ("\n" + rest);
    NotContainsChar(header, '\n');
    FindFirstAfter(header, "\n", "\n" + rest);
    assert t[|header| + 2] == '\n';
  }

  /** No space or tab stands right before a newline. */
  ghost predicate NoBlankBeforeNewline(s: string) {
    forall i :: 0 <= i < |s| - 1 && s[i + 1] == '\n' ==> !IsBlank(s[i])
  }

  /** Two texts without a blank before a newline stay so when joined, unless the
      first ends in a blank and the second starts a line. */
  lemma NoBlankJoin(a: string, b: string)
    requires NoBlankBeforeNewline(a) && NoBlankBeforeNewline(b)
    requires a != [] && b != [] && b[0] == '\n' ==> !IsBlank(a[|a| - 1])
    ensures NoBlankBeforeNewline(a + b)
  {
    var s := a + b;
    forall i | 0 <= i < |s| - 1 && s[i + 1] == '\n'
      ensures !IsBlank(s[i])
    {
      if i + 1 < |a| {
        assert s[i] == a[i] && s[i + 1] == a[i + 1];
      } else if i + 1 > |a| {
        assert s[i] == b[i - |a|] && s[i + 1] == b[i + 1 - |a|];
      } else {
        assert s[i] == a[|a| - 1] && b[0] == s[i + 1];
      }
    }
  }

  /** A slice of a text without a blank before a newline has none either. */
  lemma NoBlankSlice(s: string, lo: nat, hi: nat)
    requires lo <= hi <= |s| && NoBlankBeforeNewline(s)
    ensures NoBlankBeforeNewline(s[lo..hi])
  {
    var t := s[lo..hi];
    forall i | 0 <= i < |t| - 1 && t[i + 1] == '\n'
      ensures !IsBlank(t[i])
    {
      assert t[i] == s[lo + i] && t[i + 1] == s[lo + i + 1];
    }
  }

  /** A run of blanks at the start of `t` that ends in a newline. */
  lemma BlankRunHit(t: string)
    requires t != [] && IsBlank(t[0]) && !Hit(TrailingBlanksAt, t)
    ensures |t| == 1 || (t[1] != '\n' && !Hit(TrailingBlanksAt, t[1..]))
  {
    assert LStripBy(t, IsBlank) == LStripBy(t[1..], IsBlank);
    if |t| > 1 {
      var k1 := |t[1..]| - |LStripBy(t[1..], IsBlank)|;
      if k1 < |t| - 1 {
        assert t[k1 + 1] == t[1..][k1];
      }
    }
  }

  /** After `[ \t]+\n` is replaced by `\n` no blank stands before a newline, and the
      result starts a line only where the text does or where the pattern matches. */
  lemma {:induction false} TrailingBlanksRemoved(s: string)
    ensures NoBlankBeforeNewline(Sub(s, TrailingBlanksAt))
    ensures var r := Sub(s, TrailingBlanksAt);
      r != [] && r[0] == '\n' ==> s[0] == '\n' || Hit(TrailingBlanksAt, s)
    decreases |s|
  {
    if s != [] {
      if Hit(TrailingBlanksAt, s) {
        var rest := s[TrailingBlanksAt(s).value.len..];
        TrailingBlanksRemoved(rest);
        NoBlankJoin("\n", Sub(rest, TrailingBlanksAt));
      } else {
        TrailingBlanksRemoved(s[1..]);
        var r := Sub(s[1..], TrailingBlanksAt);
        if IsBlank(s[0]) {
          BlankRunHit(s);
        }
        NoBlankJoin([s[0]], r);
      }
    }
  }

  /** The header pass puts no blank before a newline, and its result starts a line
      only where the text does. */
  lemma {:induction false} HeaderGapKeepsNoBlank(s: string)
    requires NoBlankBeforeNewline(s)
    ensures NoBlankBeforeNewline(Sub(s, HeaderGapAt))
    ensures var r := Sub(s, HeaderGapAt); r != [] && r[0] == '\n' ==> s[0] == '\n'
    decreases |s|
  {
    if s != [] {
      if Hit(HeaderGapAt, s) {
        var k :| FindFirst(s[1..], "\n") == Some(k);
        var e := k + 1;
        var rest := s[e + 2..];
        assert s[1..][k..k + 1] == "\n";
        assert s[e] == '\n';
        NoBlankSlice(s, e + 2, |s|);
        HeaderGapKeepsNoBlank(rest);
        var tail := Sub(rest, HeaderGapAt);
        NoBlankSlice(s, 0, e);
        NoBlankJoin(s[..e], "\n\n");
        NoBlankJoin(s[..e] + "\n\n", [s[e + 1]]);
        if tail != [] && tail[0] == '\n' {
          assert s[e + 2] == '\n';
        }
        NoBlankJoin(s[..e] + "\n\n" + [s[e + 1]], tail);
        assert HeaderGapAt(s).value.replacement == s[..e] + "\n\n" + [s[e + 1]];
      } else {
        NoBlankSlice(s, 1, |s|);
        HeaderGapKeepsNoBlank(s[1..]);
        var r := Sub(s[1..], HeaderGapAt);
        if r != [] && r[0] == '\n' {
          assert s[1] == '\n';
        }
        NoBlankJoin([s[0]], r);
      }
    }
  }

  /** `clean_markdown` leaves no space or tab at the end of a line. */
  lemma CleanMarkdownNoTrailingBlanks(markdown: string)
    ensures NoBlankBeforeNewline(CleanMarkdown(markdown))
  {
    if markdown != [] {
      var unixLines := ReplaceAll(markdown, "\r\n", "\n");
      var collapsed := Sub(unixLines, BlankLinesAt);
      var trimmed := Sub(collapsed, TrailingBlanksAt);
      var spaced := Sub(trimmed, HeaderGapAt);
      TrailingBlanksRemoved(collapsed);
      HeaderGapKeepsNoBlank(trimmed);
      StripSlice(spaced);
      var lead := |spaced| - |LStrip(spaced)|;
      NoBlankSlice(spaced, lead, lead + |Strip(spaced)|);
    }
  }

  /** `replace('\r\n', '\n')` is one left-to-right pass: a carriage return before a
      CRLF is kept, so the pass itself leaves a CRLF behind. */
  lemma CrlfLeftBehind()
    ensures ReplaceAll("\r\r\n", "\r\n", "\n") == "\r\n"
  {
    var s := "\r\r\n";
    assert s[..2][1] == '\r' != "\r\n"[1];
    assert s[1..] == "\r\n" && s[1..][..2] == "\r\n" && s[1..][2..] == [];
  }

  /** A blank line holding a space or tab is not a run of three newlines. */
  lemma SpacedBlankLineKept(c: char)
    requires IsBlank(c)
    ensures Sub(['\n', c, '\n', '\n'], BlankLinesAt) == ['\n', c, '\n', '\n']
  {
    var s := ['\n', c, '\n', '\n'];
    forall i | 0 <= i < |s| ensures !Hit(BlankLinesAt, s[i..]) {
      assert s[i..][..1] == [s[i]];
      if i < 3 {
        assert s[i..][1..2] == [s[i + 1]];
      }
    }
    SubNoHit(s, BlankLinesAt);
  }

  /** A blank right before a newline is removed with it. */
  lemma BlankBeforeNewline(c: char, rest: string)
    requires IsBlank(c)
    ensures Sub([c, '\n'] + rest, TrailingBlanksAt) == "\n" + Sub(rest, TrailingBlanksAt)
  {
    var t := [c, '\n'] + rest;
    var u := t[1..];
    assert u[0] == '\n';
    assert LStripBy(u, IsBlank) == u;
    assert LStripBy(t, IsBlank) == u;
    assert |t| - |u| == 1;
    assert TrailingBlanksAt(t) == Some(Match(2, "\n"));
    assert Hit(TrailingBlanksAt, t);
    SubReplaces(t, TrailingBlanksAt);
    assert t[2..] == rest;
  }

  /** A newline starts no match of `[ \t]+\n`. */
  lemma NewlineCopied(rest: string)
    ensures Sub("\n" + rest, TrailingBlanksAt) == "\n" + Sub(rest, TrailingBlanksAt)
  {
    var t := "\n" + rest;
    assert LStripBy(t, IsBlank) == t;
    SubCopies(t, TrailingBlanksAt);
    assert t[1..] == rest;
  }

  /** A line holding one blank becomes an empty line. */
  lemma BlankLineEmptied(c: char, rest: string)
    requires IsBlank(c)
    ensures Sub("\n" + ([c, '\n'] + rest), TrailingBlanksAt) == "\n\n" + Sub(rest, TrailingBlanksAt)
  {
    BlankBeforeNewline(c, rest);
    NewlineCopied([c, '\n'] + rest);
  }

  /** `\n{3,}` is collapsed before `[ \t]+\n` is removed, so a blank line holding a
      space or tab survives the first pass and becomes an empty line in the second:
      three newlines in a row are left. */
  lemma BlankRunAfterCollapse(c: char, rest: string)
    requires IsBlank(c)
    ensures Sub("\n" + ([c, '\n'] + ("\n" + rest)), TrailingBlanksAt) == "\n\n" + ("\n" + Sub(rest, TrailingBlanksAt))
  {
    BlankLineEmptied(c, "\n" + rest);
    NewlineCopied(rest);
  }

  // ---------------------------------------------------------------------------
  // format_text_content
  // ---------------------------------------------------------------------------

  /** `format_text_content(text)`: every paragraph break becomes a line break. */
  function FormatTextContent(text: string): string {
    ReplaceAll(text, "\n\n", "\n")
  }

  /** Paragraphs of single lines separated by blank lines come out one per line. */
  lemma {:induction false} ParagraphsBecomeLines(paragraphs: seq<string>)
    requires forall i :: 0 <= i < |paragraphs| ==> '\n' !in paragraphs[i]
    ensures FormatTextContent(JoinSep(paragraphs, "\n\n")) == JoinSep(paragraphs, "\n")
    decreases |paragraphs|
  {
    if |paragraphs| == 1 {
      NotContainsMissingChar(paragraphs[0], "\n\n", 0);
      ReplaceAbsent(paragraphs[0], "\n\n", "\n");
    } else if |paragraphs| > 1 {
      var p := paragraphs[0];
      var rest := JoinSep(paragraphs[1..], "\n\n");
      ParagraphsBecomeLines(paragraphs[1..]);
      NoPrefixWithout(p, "\n\n");
      forall i | 0 <= i < |p| ensures !StartsWith((p + ("\n\n" + rest))[i..], "\n\n") {
        assert (p + ("\n\n" + rest))[i] == p[i];
        assert p[i..][0] == p[i];
      }
      ReplaceSkip(p, "\n\n" + rest, "\n\n", "\n");
      assert ("\n\n" + rest)[..2] == "\n\n" && ("\n\n" + rest)[2..] == rest;
      assert JoinSep(paragraphs, "\n\n") == p + ("\n\n" + rest);
    }
  }

  // ---------------------------------------------------------------------------
  // format_code_block: recognising Python
  // ---------------------------------------------------------------------------

  /** The length of the run of word characters (`\w`) at the start of `t`. */
  function WordRun(t: string): (k: nat)
    ensures k <= |t|
    ensures forall i :: 0 <= i < k ==> IsWordChar(t[i])
    ensures k < |t| ==> !IsWordChar(t[k])
    decreases |t|
  {
    if t != [] && IsWordChar(t[0]) then 1 + WordRun(t[1..]) else 0
  }

  /**
   * `kw\s+\w+` at the start of `t`. Whitespace is never a word character, so
   * `\s+` has to take the whole whitespace run and a word character must follow.
   */
  predicate KeywordThenWord(t: string, kw: string) {
    StartsWith(t, kw) &&
    var u := t[|kw|..];
    var k := SpaceRun(u);
    0 < k < |u| && IsWordChar(u[k])
  }

  /** `from\s+\w+\s+import` at the start of `t`; `\w+` likewise takes the whole word. */
  predicate FromImportAt(t: string) {
    StartsWith(t, "from") &&
    var u := t[4..];
    var k := SpaceRun(u);
    var v := u[k..];
    var w := WordRun(v);
    var x := v[w..];
    var m := SpaceRun(x);
    0 < k && 0 < w && 0 < m && StartsWith(x[m..], "import")
  }

  /** `async\s+def` at the start of `t`. */
  predicate AsyncDefAt(t: string) {
    StartsWith(t, "async") &&
    var u := t[5..];
    var k := SpaceRun(u);
    0 < k && StartsWith(u[k..], "def")
  }

  /** One of the five alternatives of the detection pattern matches at the start of `t`. */
  predicate PythonAt(t: string) {
    KeywordThenWord(t, "import") || FromImportAt(t) || KeywordThenWord(t, "def")
    || KeywordThenWord(t, "class") || AsyncDefAt(t)
  }

  /** `re.search(r'(import\s+\w+|from\s+\w+\s+import|def\s+\w+|class\s+\w+|async\s+def)', code)`. */
  function IsPythonCode(code: string): bool
    decreases |code|
  {
    code != [] && (PythonAt(code) || IsPythonCode(code[1..]))
  }

  /** The search succeeds exactly when the pattern matches at some position. */
  lemma {:induction false} PythonSearch(code: string)
    ensures IsPythonCode(code) <==> exists i :: 0 <= i < |code| && PythonAt(code[i..])
    decreases |code|
  {
    if code != [] {
      PythonSearch(code[1..]);
      assert code[0..] == code;
      forall i | 1 <= i < |code| ensures code[i..] == code[1..][i - 1..] { }
      if IsPythonCode(code[1..]) {
        var j :| 0 <= j < |code[1..]| && PythonAt(code[1..][j..]);
        assert code[1..][j..] == code[j + 1..];
      }
    }
  }

  /** A match of the pattern at any one position is found by the search. */
  lemma {:induction false} PythonFound(code: string, i: nat)
    requires i < |code| && PythonAt(code[i..])
    ensures IsPythonCode(code)
    decreases i
  {
    if i == 0 {
      assert code[0..] == code;
    } else {
      assert code[1..][i - 1..] == code[i..];
      PythonFound(code[1..], i - 1);
    }
  }

  /** A keyword, some whitespace and a word character match `kw\s+\w+`. */
  lemma KeywordThenWordIn(kw: string, gap: string, c: char, after: string)
    requires gap != [] && forall i :: 0 <= i < |gap| ==> IsSpace(gap[i])
    requires IsWordChar(c)
    ensures KeywordThenWord(kw + gap + [c] + after, kw)
  {
    var t := kw + gap + [c] + after;
    assert t[..|kw|] == kw;
    var u := t[|kw|..];
    assert u == gap + ([c] + after);
    SpaceRunIs(u, |gap|);
  }

  /** `import`, `def` or `class`, whitespace and a word, anywhere in the text, mark it as Python. */
  lemma PythonInContext(before: string, kw: string, gap: string, c: char, after: string)
    requires kw == "import" || kw == "def" || kw == "class"
    requires gap != [] && forall i :: 0 <= i < |gap| ==> IsSpace(gap[i])
    requires IsWordChar(c)
    ensures IsPythonCode(before + kw + gap + [c] + after)
  {
    var code := before + kw + gap + [c] + after;
    var t := kw + gap + [c] + after;
    assert code[|before|..] == t;
    KeywordThenWordIn(kw, gap, c, after);
    assert PythonAt(t);
    PythonFound(code, |before|);
  }

  /** Every alternative of the pattern starts with a letter. */
  lemma NotPythonAt(t: string)
    requires t == [] || !IsLetter(t[0])
    ensures !PythonAt(t)
  {
    NotStartsWithHead(t, "import");
    NotStartsWithHead(t, "from");
    NotStartsWithHead(t, "def");
    NotStartsWithHead(t, "class");
    NotStartsWithHead(t, "async");
  }

  /** Text without any letter is never taken for Python. */
  lemma NoLettersNoPython(code: string)
    requires forall i :: 0 <= i < |code| ==> !IsLetter(code[i])
    ensures !IsPythonCode(code)
  {
    PythonSearch(code);
    forall i | 0 <= i < |code| ensures !PythonAt(code[i..]) {
      assert code[i..][0] == code[i];
      NotPythonAt(code[i..]);
    }
  }

  // ---------------------------------------------------------------------------
  // format_code_block: trimming and dedenting the lines
  // ---------------------------------------------------------------------------

  /** `not line.strip()`: the line holds only whitespace (see `BlankLineIff`). */
  predicate IsBlankLine(line: string) {
    forall i :: 0 <= i < |line| ==> IsSpace(line[i])
  }

  /** The number of blank lines at the start. */
  function LeadingBlankCount(lines: seq<string>): (k: nat)
    ensures k <= |lines|
    ensures forall i :: 0 <= i < k ==> IsBlankLine(lines[i])
    ensures k < |lines| ==> !IsBlankLine(lines[k])
    decreases |lines|
  {
    if lines != [] && IsBlankLine(lines[0]) then 1 + LeadingBlankCount(lines[1..]) else 0
  }

  /** The number of blank lines at the end. */
  function TrailingBlankCount(lines: seq<string>): (k: nat)
    ensures k <= |lines|
    ensures forall i :: |lines| - k <= i < |lines| ==> IsBlankLine(lines[i])
    ensures k < |lines| ==> !IsBlankLine(lines[|lines| - k - 1])
    decreases |lines|
  {
    if lines != [] && IsBlankLine(lines[|lines| - 1]) then 1 + TrailingBlankCount(lines[..|lines| - 1]) else 0
  }

  /** The lines after the leading blank ones. */
  function DropLeadingBlankLines(lines: seq<string>): seq<string> {
    lines[LeadingBlankCount(lines)..]
  }

  /** The lines before the trailing blank ones. */
  function DropTrailingBlankLines(lines: seq<string>): seq<string> {
    lines[..|lines| - TrailingBlankCount(lines)]
  }

  /** The two `pop` loops: blank lines dropped from the start, then from the end. */
  function TrimBlankLines(lines: seq<string>): seq<string> {
    DropTrailingBlankLines(DropLeadingBlankLines(lines))
  }

  /** `while lines and not lines[0].strip(): lines.pop(0)`. */
  method PopLeadingBlankLines(lines: seq<string>) returns (r: seq<string>)
    ensures r == DropLeadingBlankLines(lines)
  {
    r := lines;
    while r != [] && IsBlankLine(r[0])
      invariant |lines| - |r| <= LeadingBlankCount(lines) && r == lines[|lines| - |r|..]
      decreases |r|
    {
      r := r[1..];
    }
  }

  /** `while lines and not lines[-1].strip(): lines.pop()`. */
  method PopTrailingBlankLines(lines: seq<string>) returns (r: seq<string>)
    ensures r == DropTrailingBlankLines(lines)
  {
    r := lines;
    while r != [] && IsBlankLine(r[|r| - 1])
      invariant |lines| - |r| <= TrailingBlankCount(lines) && r == lines[..|r|]
      decreases |r|
    {
      r := r[..|r| - 1];
    }
  }

  /** The trimmed lines are the original lines between two runs of blank lines, and
      they start and end with a non-blank line. */
  lemma TrimmedLines(lines: seq<string>)
    ensures var r := TrimBlankLines(lines); var a := LeadingBlankCount(lines);
      a + |r| <= |lines| && r == lines[a..a + |r|]
    ensures forall i :: 0 <= i < LeadingBlankCount(lines) ==> IsBlankLine(lines[i])
    ensures var r := TrimBlankLines(lines);
      forall i :: LeadingBlankCount(lines) + |r| <= i < |lines| ==> IsBlankLine(lines[i])
    ensures var r := TrimBlankLines(lines); r == [] || (!IsBlankLine(r[0]) && !IsBlankLine(r[|r| - 1]))
  {
    TrimmedSlice(lines);
    TrimmedTail(lines);
    TrimmedEnds(lines);
  }

  lemma TrimmedSlice(lines: seq<string>)
    ensures var r := TrimBlankLines(lines); var a := LeadingBlankCount(lines);
      a + |r| <= |lines| && r == lines[a..a + |r|]
  {
    var a := LeadingBlankCount(lines);
    var l := lines[a..];
    PrefixOfSuffixIs(lines, a, |l| - TrailingBlankCount(l), TrimBlankLines(lines));
  }

  /** A prefix of a suffix, named. */
  lemma PrefixOfSuffixIs<T>(s: seq<T>, a: nat, k: nat, r: seq<T>)
    requires a + k <= |s| && r == s[a..][..k]
    ensures |r| == k && r == s[a..a + k]
  {
    PrefixOfSuffix(s, a, k);
  }

  lemma TrimmedTail(lines: seq<string>)
    ensures var r := TrimBlankLines(lines);
      forall i :: LeadingBlankCount(lines) + |r| <= i < |lines| ==> IsBlankLine(lines[i])
  {
    var a := LeadingBlankCount(lines);
    var l := lines[a..];
    var r := l[..|l| - TrailingBlankCount(l)];
    forall i | a + |r| <= i < |lines| ensures IsBlankLine(lines[i]) {
      assert lines[i] == l[i - a];
    }
  }

  lemma TrimmedEnds(lines: seq<string>)
    ensures var r := TrimBlankLines(lines); r == [] || (!IsBlankLine(r[0]) && !IsBlankLine(r[|r| - 1]))
  {
    var a := LeadingBlankCount(lines);
    var l := lines[a..];
    var r := l[..|l| - TrailingBlankCount(l)];
    if r != [] {
      assert r[0] == lines[a];
      assert r[|r| - 1] == l[|l| - TrailingBlankCount(l) - 1];
    }
  }

  /** `get_indentation(line)` for a non-blank line: the length of its leading whitespace. */
  function Indent(line: string): nat {
    SpaceRun(line)
  }

  /** `min(indentation_levels)`, or `None` when every line is blank (the minimum is
      attained: see `MinIndentAttained`). */
  function MinIndent(lines: seq<string>): (r: Option<nat>)
    ensures r.None? <==> forall i :: 0 <= i < |lines| ==> IsBlankLine(lines[i])
    ensures r.Some? ==> forall i :: 0 <= i < |lines| && !IsBlankLine(lines[i]) ==> r.value <= Indent(lines[i])
    decreases |lines|
  {
    if lines == [] then None
    else
      var rest := MinIndent(lines[1..]);
      if IsBlankLine(lines[0]) then rest
      else
        var k := Indent(lines[0]);
        match rest
        case None => Some(k)
        case Some(m) => if k <= m then Some(k) else Some(m)
  }

  /** Some non-blank line has exactly the minimal indentation. */
  lemma {:induction false} MinIndentAttained(lines: seq<string>)
    requires MinIndent(lines).Some?
    ensures exists i :: 0 <= i < |lines| && !IsBlankLine(lines[i]) && Indent(lines[i]) == MinIndent(lines).value
    decreases |lines|
  {
    var rest := MinIndent(lines[1..]);
    if IsBlankLine(lines[0]) || (rest.Some? && rest.value < Indent(lines[0])) {
      MinIndentAttained(lines[1..]);
      var j :| 0 <= j < |lines[1..]| && !IsBlankLine(lines[1..][j]) && Indent(lines[1..][j]) == rest.value;
      assert lines[j + 1] == lines[1..][j];
    } else {
      assert Indent(lines[0]) == MinIndent(lines).value;
    }
  }

  /** A line minus part of its indentation keeps the rest of it and stays non-blank. */
  lemma Unindent(line: string, m: nat)
    requires !IsBlankLine(line) && m <= Indent(line)
    ensures !IsBlankLine(line[m..]) && Indent(line[m..]) == Indent(line) - m
  {
    var k := Indent(line);
    assert k < |line|;
    var u := line[m..];
    assert u[k - m] == line[k];
    forall i | 0 <= i < k - m ensures IsSpace(u[i]) {
      assert u[i] == line[m + i];
    }
    SpaceRunIs(u, k - m);
  }

  /** A line is blank exactly when stripping it leaves nothing. */
  lemma BlankLineIff(line: string)
    ensures IsBlankLine(line) <==> Strip(line) == []
  {
    StripEmpty(line);
  }

  /** `[line[common_indent:] if line.strip() else '' for line in lines]` when some line is
      non-blank; the lines are left alone otherwise. */
  function Dedent(lines: seq<string>): (r: seq<string>)
    ensures |r| == |lines|
  {
    match MinIndent(lines)
    case None => lines
    case Some(m) =>
      seq(|lines|, i requires 0 <= i < |lines| =>
        if IsBlankLine(lines[i]) then [] else lines[i][m..])
  }

  /** Dedenting empties the blank lines and keeps the others non-blank. */
  lemma DedentBlanks(lines: seq<string>)
    ensures forall i :: 0 <= i < |lines| ==> (IsBlankLine(lines[i]) <==> IsBlankLine(Dedent(lines)[i]))
    ensures forall i :: 0 <= i < |lines| && IsBlankLine(lines[i]) && MinIndent(lines).Some? ==> Dedent(lines)[i] == []
  {
    var r := Dedent(lines);
    if MinIndent(lines).Some? {
      var m := MinIndent(lines).value;
      forall i | 0 <= i < |lines| && !IsBlankLine(lines[i]) ensures !IsBlankLine(r[i]) {
        assert r[i] == lines[i][m..];
        Unindent(lines[i], m);
      }
    }
  }

  /** After dedenting, a non-blank line starts at the margin. */
  lemma DedentFlush(lines: seq<string>)
    requires exists i :: 0 <= i < |lines| && !IsBlankLine(lines[i])
    ensures MinIndent(Dedent(lines)) == Some(0)
  {
    var m := MinIndent(lines).value;
    var r := Dedent(lines);
    MinIndentAttained(lines);
    var j :| 0 <= j < |lines| && !IsBlankLine(lines[j]) && Indent(lines[j]) == m;
    assert r[j] == lines[j][m..];
    Unindent(lines[j], m);
    MinIndentZero(r, j);
  }

  /** A non-blank line at the margin makes the minimal indentation zero. */
  lemma MinIndentZero(lines: seq<string>, j: nat)
    requires j < |lines| && !IsBlankLine(lines[j]) && Indent(lines[j]) == 0
    ensures MinIndent(lines) == Some(0)
  {
    var r := MinIndent(lines);
    assert r.Some?;
    assert r.value <= 0;
  }

  /** Dedenting twice is dedenting once. */
  lemma DedentIdempotent(lines: seq<string>)
    ensures Dedent(Dedent(lines)) == Dedent(lines)
  {
    var r := Dedent(lines);
    if exists i :: 0 <= i < |lines| && !IsBlankLine(lines[i]) {
      DedentFlush(lines);
      DedentBlanks(lines);
      forall i | 0 <= i < |r| ensures Dedent(r)[i] == r[i] {
        if IsBlankLine(r[i]) {
          assert r[i] == [];
        }
      }
    }
  }

  /** The lines with every blank line emptied and the others kept as they are. */
  function BlankedLines(lines: seq<string>): (r: seq<string>)
    ensures |r| == |lines|
  {
    seq(|lines|, i requires 0 <= i < |lines| => if IsBlankLine(lines[i]) then [] else lines[i])
  }

  /**
   * The lines of stripped code begin and end with a non-blank line, and the first
   * one is not indented; so trimming removes nothing and dedenting only empties the
   * whitespace-only lines.
   */
  lemma ReindentStripped(c: string)
    requires c != [] && !IsSpace(c[0]) && !IsSpace(c[|c| - 1])
    ensures Dedent(TrimBlankLines(SplitOn(c, '\n'))) == BlankedLines(SplitOn(c, '\n'))
  {
    StrippedLinesFlush(c);
    FlushLinesBlanked(SplitOn(c, '\n'));
  }

  /** The line starts with a non-space character. */
  predicate StartsFlush(line: string) {
    line != [] && !IsSpace(line[0])
  }

  /** The line ends with a non-space character. */
  predicate EndsFlush(line: string) {
    line != [] && !IsSpace(line[|line| - 1])
  }

  /** The lines start with a non-space character and end with one. */
  predicate FlushLines(lines: seq<string>) {
    lines != [] && StartsFlush(lines[0]) && EndsFlush(lines[|lines| - 1])
  }

  /** Stripped text splits into flush lines. */
  lemma StrippedLinesFlush(c: string)
    requires c != [] && !IsSpace(c[0]) && !IsSpace(c[|c| - 1])
    ensures FlushLines(SplitOn(c, '\n'))
  {
    StrippedFirstLine(c);
    StrippedLastLine(c);
  }

  lemma StrippedFirstLine(c: string)
    requires c != [] && !IsSpace(c[0])
    ensures StartsFlush(SplitOn(c, '\n')[0])
  {
    SplitOnFirst(c, '\n');
  }

  lemma StrippedLastLine(c: string)
    requires c != [] && !IsSpace(c[|c| - 1])
    ensures var parts := SplitOn(c, '\n'); EndsFlush(parts[|parts| - 1])
  {
    SplitOnLast(c, '\n');
  }

  /** A line with a non-whitespace character is not blank. */
  lemma NonBlankLine(line: string, k: nat)
    requires k < |line| && !IsSpace(line[k])
    ensures !IsBlankLine(line)
  {
  }

  /** Empty code has one empty line, which the trimming removes. */
  lemma ReindentEmpty()
    ensures Dedent(TrimBlankLines(SplitOn([], '\n'))) == []
  {
    var lines := SplitOn([], '\n');
    assert lines == [[]];
    assert LeadingBlankCount(lines) == 1;
  }

  /** Lines that begin with an unindented line and end with a non-blank one are only
      blanked by trimming and dedenting. */
  lemma FlushLinesBlanked(lines: seq<string>)
    requires FlushLines(lines)
    ensures Dedent(TrimBlankLines(lines)) == BlankedLines(lines)
  {
    FlushLinesKept(lines);
    FlushLinesDedent(lines);
  }

  /** Flush lines have no blank line to trim at either end. */
  lemma FlushLinesKept(lines: seq<string>)
    requires FlushLines(lines)
    ensures TrimBlankLines(lines) == lines
  {
    NonBlankLine(lines[0], 0);
    NonBlankLine(lines[|lines| - 1], |lines[|lines| - 1]| - 1);
    LeadingLineKept(lines);
    TrailingLineKept(lines);
  }

  lemma LeadingLineKept(lines: seq<string>)
    requires lines != [] && !IsBlankLine(lines[0])
    ensures DropLeadingBlankLines(lines) == lines
  {
  }

  lemma TrailingLineKept(lines: seq<string>)
    requires lines != [] && !IsBlankLine(lines[|lines| - 1])
    ensures DropTrailingBlankLines(lines) == lines
  {
  }

  /** With the first line at the margin, dedenting only empties the blank lines. */
  lemma FlushLinesDedent(lines: seq<string>)
    requires FlushLines(lines)
    ensures Dedent(lines) == BlankedLines(lines)
  {
    NonBlankLine(lines[0], 0);
    SpaceRunIs(lines[0], 0);
    MinIndentZero(lines, 0);
    var r := Dedent(lines);
    forall i | 0 <= i < |lines| ensures r[i] == BlankedLines(lines)[i] {
      assert lines[i][0..] == lines[i];
    }
  }

  /** `format_code_block(code)` of `websum.py`, the five line-break passes and the
      string-indentation pass being `layout`. */
  function FormattedCodeBlock(code: string, layout: string -> string): string {
    var stripped := Strip(code);
    if IsPythonCode(code) then
      var lines := Dedent(TrimBlankLines(SplitOn(stripped, '\n')));
      Fenced("python", layout(JoinSep(lines, "\n")))
    else Fenced("", stripped)
  }

  /** `format_code_block(code)`: detect Python, strip, and for Python trim, dedent and lay out the lines. */
  method FormatCodeBlock(code: string, layout: string -> string) returns (r: string)
    ensures r == FormattedCodeBlock(code, layout)
  {
    var isPython := IsPythonCode(code);
    var body := Strip(code);
    if isPython {
      var lines := SplitOn(body, '\n');
      lines := PopLeadingBlankLines(lines);
      lines := PopTrailingBlankLines(lines);
      lines := Dedent(lines);
      body := layout(JoinSep(lines, "\n"));
    }
    var lang := if isPython then "python" else "";
    r := Fenced(lang, body);
  }

  /** The block is tagged `python` exactly when the pattern was found, and other code
      is only stripped. */
  lemma CodeBlockTagged(code: string, layout: string -> string)
    ensures var u := Unfenced(FormattedCodeBlock(code, layout));
      && u.Some?
      && (u.value.0 == "python" <==> IsPythonCode(code))
      && (u.value.0 == "" <==> !IsPythonCode(code))
      && (!IsPythonCode(code) ==> u.value.1 == Strip(code))
  {
    var stripped := Strip(code);
    if IsPythonCode(code) {
      var body := layout(JoinSep(Dedent(TrimBlankLines(SplitOn(stripped, '\n'))), "\n"));
      UnfencedFenced("python", body);
    } else {
      UnfencedFenced("", stripped);
    }
  }

  /** For Python the trimming and dedenting only empty whitespace-only lines:
      the layout passes see the stripped code with those lines emptied. */
  lemma PythonLinesOnlyBlanked(code: string, layout: string -> string)
    requires IsPythonCode(code)
    ensures FormattedCodeBlock(code, layout) == Fenced("python", layout(JoinSep(BlankedLines(SplitOn(Strip(code), '\n')), "\n")))
  {
    var c := Strip(code);
    if c == [] {
      ReindentEmpty();
      assert SplitOn(c, '\n') == [[]];
      assert BlankedLines([[]]) == [[]];
    } else {
      ReindentStripped(c);
    }
  }

  /** Stripped Python code without whitespace-only lines reaches the layout passes unchanged. */
  lemma PythonBodyUnchanged(code: string, layout: string -> string)
    requires IsPythonCode(code)
    requires var lines := SplitOn(Strip(code), '\n');
      forall i :: 0 <= i < |lines| && IsBlankLine(lines[i]) ==> lines[i] == []
    ensures FormattedCodeBlock(code, layout) == Fenced("python", layout(Strip(code)))
  {
    var lines := SplitOn(Strip(code), '\n');
    PythonLinesOnlyBlanked(code, layout);
    assert BlankedLines(lines) == lines;
    SplitOnJoin(Strip(code), '\n');
  }


  /** Empty or whitespace-only code gives an empty untagged block: three lines once stripped. */
  lemma BlankCodeBlock(code: string, layout: string -> string)
    requires forall i :: 0 <= i < |code| ==> IsSpace(code[i])
    ensures FormattedCodeBlock(code, layout) == Fenced("", "")
    ensures SplitOn(Strip(FormattedCodeBlock(code, layout)), '\n') == [FenceMark, "", FenceMark]
  {
    BlankCodeUntagged(code, layout);
    EmptyBlockStripped();
    EmptyBlockLines();
  }

  lemma BlankCodeUntagged(code: string, layout: string -> string)
    requires forall i :: 0 <= i < |code| ==> IsSpace(code[i])
    ensures FormattedCodeBlock(code, layout) == Fenced("", "")
  {
    NoLettersNoPython(code);
    StripEmpty(code);
  }

  lemma EmptyBlockLines()
    ensures SplitOn(FenceMark + "\n\n" + FenceMark, '\n') == [FenceMark, "", FenceMark]
  {
    var parts := [FenceMark, "", FenceMark];
    assert parts[1..] == ["", FenceMark];
    assert parts[1..][1..] == [FenceMark];
    assert JoinSep(parts[1..], "\n") == "\n" + FenceMark;
    assert JoinSep(parts, "\n") == FenceMark + "\n" + ("\n" + FenceMark);
    assert "\n" + "\n" == "\n\n";
    AppendAssoc(FenceMark + "\n", "\n", FenceMark);
    assert "\n" == ['\n'];
    SplitJoin(parts, '\n');
    assert SplitOn(JoinSep(parts, ['\n']), '\n') == parts;
    assert JoinSep(parts, ['\n']) == FenceMark + "\n\n" + FenceMark;
  }

  /** The empty untagged block without its surrounding newlines. */
  lemma EmptyBlockStripped()
    ensures Strip(Fenced("", "")) == FenceMark + "\n\n" + FenceMark
  {
    var w := FenceMark + "\n\n" + FenceMark;
    assert Fenced("", "") == "\n" + w + "\n";
    StripNewlines(w);
  }

  /** One newline on each side of a word is what `strip()` removes. */
  lemma StripNewlines(w: string)
    requires w != [] && !IsSpace(w[0]) && !IsSpace(w[|w| - 1])
    ensures Strip("\n" + w + "\n") == w
  {
    AppendAssoc("\n", w, "\n");
    LStripSpaces("\n", w + "\n");
    var u := w + "\n";
    assert u[..|u| - 1] == w;
    assert TrailingSpaceRun(u) == 1;
  }
}
