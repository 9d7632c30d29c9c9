/**
 * The text and URL helpers of `modules/utils.py`: cleaning scraped text,
 * recognising navigation boilerplate, completing URLs with a scheme, tidying
 * markdown and re-fencing the code spans it holds.
 */
module Utils {
  import opened Wrappers
  import opened Strings
  import opened Regex
  import opened CodeBlock

  // ---------------------------------------------------------------------------
  // clean_text
  // ---------------------------------------------------------------------------

  /**
   * `\[([^\]]+)\]\([^\)]+\)` replaced by `\1`: a markdown link becomes its label.
   * The label runs to the first `]` (it cannot hold one, so the greedy class
   * stops there and no shorter label is tried with success); the target runs to
   * the first `)`. Both must be non-empty.
   */
  function MarkdownLinkAt(t: string): Option<Match> {
    if t == [] || t[0] != '[' then None
    else match FindFirst(t[1..], "]")
      case None => None
      case Some(k) =>
        var after := t[k + 2..];
        if k == 0 || after == [] || after[0] != '(' then None
        else match FindFirst(after[1..], ")")
          case None => None
          case Some(m) => if m == 0 then None else Some(Match(k + m + 4, t[1..k + 1]))
  }

  /** The characters of the class `[=\-\*•◦○●]`, which `clean_text` deletes. */
  predicate IsDecoration(c: char) {
    c == '=' || c == '-' || c == '*' || c == '\U{2022}' || c == '\U{25E6}' || c == '\U{25CB}' || c == '\U{25CF}'
  }

  predicate IsPlain(c: char) { !IsDecoration(c) }

  /** `t.replace(p1, r1).replace(p2, r2)...` for the rules in order. */
  function ReplaceEach(t: string, rules: seq<(string, string)>): string
    requires forall i :: 0 <= i < |rules| ==> rules[i].0 != []
    decreases |rules|
  {
    if rules == [] then t
    else
      var last := rules[|rules| - 1];
      ReplaceAll(ReplaceEach(t, rules[..|rules| - 1]), last.0, last.1)
  }

  /** The encoding repairs of `clean_text` that can fire, in order: mis-decoded
      right quote, dash, left quote and closing quote. */
  const QuoteRepairs: seq<(string, string)> := [
    ("\U{E2}\U{20AC}\U{2122}", "'"),
    ("\U{E2}\U{20AC}\"", "-"),
    ("\U{E2}\U{20AC}\U{153}", "\""),
    ("\U{E2}\U{20AC}", "\"")]

  function FixQuotes(t: string): string {
    ReplaceEach(t, QuoteRepairs)
  }

  /** All five encoding repairs; the last one turns the mis-decoded bullet into `•`. */
  function FixMojibake(t: string): string {
    ReplaceAll(FixQuotes(t), "\U{E2}\U{20AC}\U{A2}", "\U{2022}")
  }

  /** `clean_text(text)`. */
  function CleanText(text: string): string {
    var unlinked := Sub(text, MarkdownLinkAt);
    var plain := Filter(unlinked, IsPlain);
    var spaced := CollapseRuns(plain, IsSpace, ' ');
    FixMojibake(Strip(spaced))
  }

  /** Whitespace is single plain spaces. */
  predicate SingleSpaced(t: string) {
    && (forall i :: 0 <= i < |t| ==> IsSpace(t[i]) ==> t[i] == ' ')
    && (forall i :: 0 <= i < |t| - 1 ==> !(t[i] == ' ' && t[i + 1] == ' '))
  }

  /** Single spaces between words and none around them. */
  predicate Normalized(t: string) {
    SingleSpaced(t) && (t == [] || (t[0] != ' ' && t[|t| - 1] != ' '))
  }

  /** The text `clean_text` returns has its whitespace normalised: single spaces
      between words, none at either end, no tab or newline. */
  lemma CleanTextNormalized(text: string)
    ensures Normalized(CleanText(text))
  {
    var spaced := CollapseRuns(Filter(Sub(text, MarkdownLinkAt), IsPlain), IsSpace, ' ');
    StripKeepsSpacing(spaced);
    MojibakeKeepsNormalized(Strip(spaced));
  }

  lemma StripKeepsSpacing(t: string)
    requires SingleSpaced(t)
    ensures Normalized(Strip(t))
  {
    StripSlice(t);
    var lead := |t| - |LStrip(t)|;
    SliceSingleSpaced(t, lead, lead + |Strip(t)|);
  }

  /** A slice of single-spaced text is single-spaced. */
  lemma SliceSingleSpaced(t: string, a: nat, b: nat)
    requires SingleSpaced(t) && a <= b <= |t|
    ensures SingleSpaced(t[a..b])
  {
    var u := t[a..b];
    assert forall i :: 0 <= i < |u| ==> u[i] == t[a + i];
  }

  lemma MojibakeKeepsNormalized(t: string)
    requires Normalized(t)
    ensures Normalized(FixMojibake(t))
  {
    QuoteRepairsSpaceFree();
    RepairsKeepNormalized(t, QuoteRepairs);
    ReplaceKeepsNormalized(FixQuotes(t), "\U{E2}\U{20AC}\U{A2}", "\U{2022}");
  }

  /** Rules whose patterns and replacements are non-empty and hold no whitespace. */
  predicate SpaceFreeRules(rules: seq<(string, string)>) {
    forall i :: 0 <= i < |rules| ==>
      rules[i].0 != [] && rules[i].1 != [] && NoSpace(rules[i].0) && NoSpace(rules[i].1)
  }

  lemma QuoteRepairsSpaceFree()
    ensures SpaceFreeRules(QuoteRepairs)
  {
  }

  lemma {:induction false} RepairsKeepNormalized(t: string, rules: seq<(string, string)>)
    requires SpaceFreeRules(rules)
    requires Normalized(t)
    ensures Normalized(ReplaceEach(t, rules))
    decreases |rules|
  {
    if rules != [] {
      RepairsKeepNormalized(t, rules[..|rules| - 1]);
      var last := rules[|rules| - 1];
      ReplaceKeepsNormalized(ReplaceEach(t, rules[..|rules| - 1]), last.0, last.1);
    }
  }

  /** Replacing a space-free pattern by space-free text keeps the spacing normalised. */
  lemma ReplaceKeepsNormalized(t: string, p: string, r: string)
    requires p != [] && r != [] && NoSpace(p) && NoSpace(r)
    requires Normalized(t)
    ensures Normalized(ReplaceAll(t, p, r))
  {
    ReplaceKeepsSpacing(t, p, r);
    assert SpacingKept(t, ReplaceAll(t, p, r));
  }

  /** `out` is single-spaced, empty exactly when `t` is, and starts and ends with a space
      exactly when `t` does. */
  predicate SpacingKept(t: string, out: string) {
    && SingleSpaced(out)
    && (out == [] <==> t == [])
    && (out != [] && t != [] ==> (out[0] == ' ' <==> t[0] == ' '))
    && (out != [] && t != [] ==> (out[|out| - 1] == ' ' <==> t[|t| - 1] == ' '))
  }

  lemma {:induction false} ReplaceKeepsSpacing(t: string, p: string, r: string)
    requires p != [] && r != [] && NoSpace(p) && NoSpace(r)
    requires SingleSpaced(t)
    ensures SpacingKept(t, ReplaceAll(t, p, r))
    decreases |t|
  {
    if |t| >= |p| {
      if t[..|p|] == p {
        var rest := t[|p|..];
        SliceSingleSpaced(t, |p|, |t|);
        ReplaceKeepsSpacing(rest, p, r);
        assert t == p + rest;
        SpacingPrefix(p, r, rest, ReplaceAll(rest, p, r));
      } else {
        SliceSingleSpaced(t, 1, |t|);
        ReplaceKeepsSpacing(t[1..], p, r);
        assert t == [t[0]] + t[1..];
        SpacingPrefix([t[0]], [t[0]], t[1..], ReplaceAll(t[1..], p, r));
      }
    }
  }

  /** A piece put in front of a text whose spacing is kept, by a piece that starts and ends
      like it, keeps the spacing of the whole. */
  lemma SpacingPrefix(x: string, xo: string, y: string, yo: string)
    requires x != [] && xo != [] && SingleSpaced(xo)
    requires (xo[0] == ' ' <==> x[0] == ' ') && (xo[|xo| - 1] == ' ' <==> x[|x| - 1] == ' ')
    requires SpacingKept(y, yo) && SingleSpaced(x + y)
    ensures SpacingKept(x + y, xo + yo)
  {
    if y != [] {
      assert (x + y)[|x| - 1] == x[|x| - 1] && (x + y)[|x|] == y[0];
    }
    SpacingJoin(xo, yo);
    var s := xo + yo;
    assert s[0] == xo[0] && (x + y)[0] == x[0];
    if y == [] {
      assert s == xo && x + y == x;
    } else {
      assert s[|s| - 1] == yo[|yo| - 1] && (x + y)[|x + y| - 1] == y[|y| - 1];
    }
  }

  /** Two single-spaced pieces join into a single-spaced text unless both spaces meet. */
  lemma SpacingJoin(a: string, b: string)
    requires SingleSpaced(a) && SingleSpaced(b)
    requires a != [] && b != [] ==> !(a[|a| - 1] == ' ' && b[0] == ' ')
    ensures SingleSpaced(a + b)
  {
    var s := a + b;
    forall i | 0 <= i < |s| - 1 ensures !(s[i] == ' ' && s[i + 1] == ' ') {
      if i + 1 < |a| {
        assert s[i] == a[i] && s[i + 1] == a[i + 1];
      } else if i >= |a| {
        assert s[i] == b[i - |a|] && s[i + 1] == b[i - |a| + 1];
      }
    }
  }

  /** The bullet repair (`â€¢` to `•`) can never fire: the repair before it has
      already rewritten every `â€`, so the text it returns is the text it gets. */
  lemma BulletRepairInert(t: string)
    ensures FixMojibake(t) == FixQuotes(t)
  {
    var closing := "\U{E2}\U{20AC}";
    var bullet := "\U{E2}\U{20AC}\U{A2}";
    var before := ReplaceEach(t, QuoteRepairs[..3]);
    assert FixQuotes(t) == ReplaceAll(before, closing, "\"");
    ReplaceLeavesNone(before, closing, "\"");
    var fixed := FixQuotes(t);
    assert StartsWith(bullet, closing);
    ContainsPrefixNotIn(fixed, bullet, closing);
    ReplaceAbsent(fixed, bullet, "\U{2022}");
  }

  /** The matcher's result once both closing brackets have been found. */
  lemma LinkAt(t: string, k: nat, m: nat)
    requires t != [] && t[0] == '[' && FindFirst(t[1..], "]") == Some(k) && 0 < k
    requires k + 2 < |t| && t[k + 2] == '(' && FindFirst(t[k + 3..], ")") == Some(m) && 0 < m
    ensures MarkdownLinkAt(t) == Some(Match(k + m + 4, t[1..k + 1]))
  {
    assert t[k + 2..][1..] == t[k + 3..];
  }

  /** A markdown link followed by anything is replaced by its label. */
  lemma MarkdownLinkUnwrapped(name: string, target: string, rest: string)
    requires name != [] && ']' !in name
    requires target != [] && ')' !in target
    ensures Sub("[" + name + "](" + target + ")" + rest, MarkdownLinkAt) == name + Sub(rest, MarkdownLinkAt)
  {
    var link := "[" + name + "](" + target + ")";
    var t := link + rest;
    LinkMatched(name, target, rest);
    SubReplaces(t, MarkdownLinkAt);
    SuffixAfterPrefix(link, rest, 0);
    assert rest[0..] == rest;
  }

  /** The matcher reads a link's label, up to the first `]`, and its target, up to the first `)`. */
  lemma LinkMatched(name: string, target: string, rest: string)
    requires name != [] && ']' !in name
    requires target != [] && ')' !in target
    ensures MarkdownLinkAt("[" + name + "](" + target + ")" + rest)
      == Some(Match(|name| + |target| + 4, name))
  {
    var t := "[" + name + "](" + target + ")" + rest;
    LinkLayout(name, target, rest);
    NotContainsChar(name, ']');
    FindFirstAfter(name, "]", "(" + target + ")" + rest);
    NotContainsChar(target, ')');
    FindFirstAfter(target, ")", rest);
    LinkAt(t, |name|, |target|);
  }

  /** Where the pieces of a markdown link sit. */
  lemma LinkLayout(name: string, target: string, rest: string)
    ensures var t := "[" + name + "](" + target + ")" + rest;
      && |t| == |name| + |target| + |rest| + 4
      && t[0] == '[' && t[|name| + 2] == '('
      && t[1..] == name + "]" + ("(" + target + ")" + rest)
      && t[|name| + 3..] == target + ")" + rest
      && t[1..|name| + 1] == name
  {
  }

  // ---------------------------------------------------------------------------
  // is_navigation_text
  // ---------------------------------------------------------------------------

  /** The plain keywords of the three navigation patterns. */
  const NavWords: seq<string> := [
    "home", "search", "blog", "changelog", "installation", "deployment",
    "previous", "next", "menu", "navigation",
    "copyright", "terms", "privacy", "contact"]

  /** `quick\s+start` matches at the start of `t`. */
  predicate QuickStartAt(t: string) {
    StartsWith(t, "quick") && |t| > 5 && IsSpace(t[5]) && StartsWith(LStrip(t[5..]), "start")
  }

  /** `re.search(r'quick\s+start', t)`. */
  predicate HasQuickStart(t: string) {
    exists i :: 0 <= i <= |t| && QuickStartAt(t[i..])
  }

  /** One of the keywords `kws` occurs in `l`. */
  predicate MentionsAny(l: string, kws: seq<string>) {
    exists k :: 0 <= k < |kws| && Contains(l, kws[k])
  }

  /** `is_navigation_text(text)`: one of the keywords occurs in the lower-cased text. */
  predicate IsNavigationText(text: string) {
    var l := Lower(text);
    MentionsAny(l, NavWords) || HasQuickStart(l)
  }

  /** The test ignores letter case. */
  lemma NavigationIgnoresCase(text: string)
    ensures IsNavigationText(Lower(text)) == IsNavigationText(text)
  {
    assert Lower(Lower(text)) == Lower(text);
  }

  /** Text recognised as navigation stays so inside any surrounding text. */
  lemma NavigationInContext(a: string, x: string, b: string)
    requires IsNavigationText(x)
    ensures IsNavigationText(a + x + b)
  {
    LowerAppend(a + x, b);
    LowerAppend(a, x);
    var l := Lower(x);
    assert Lower(a + x + b) == Lower(a) + l + Lower(b);
    if MentionsAny(l, NavWords) {
      var k :| 0 <= k < |NavWords| && Contains(l, NavWords[k]);
      ContainsInContext(Lower(a), l, Lower(b), NavWords[k]);
    } else {
      QuickStartInContext(Lower(a), l, Lower(b));
    }
  }

  lemma QuickStartInContext(a: string, x: string, b: string)
    requires HasQuickStart(x)
    ensures HasQuickStart(a + x + b)
  {
    QuickStartExtended(x, b);
    QuickStartPrefixed(a, x + b);
    AppendAssoc(a, x, b);
  }

  lemma QuickStartPrefixed(a: string, y: string)
    requires HasQuickStart(y)
    ensures HasQuickStart(a + y)
  {
    var i :| 0 <= i <= |y| && QuickStartAt(y[i..]);
    QuickStartFoundAfter(a, y, i);
  }

  lemma QuickStartFoundAfter(a: string, y: string, i: nat)
    requires i <= |y| && QuickStartAt(y[i..])
    ensures HasQuickStart(a + y)
  {
    var t := a + y;
    var j := |a| + i;
    assert t[j..] == y[i..] by {
      SuffixAfterPrefix(a, y, i);
    }
    QuickStartFound(t, j);
  }

  /** A match at some position is a match. */
  lemma QuickStartFound(t: string, i: nat)
    requires i <= |t| && QuickStartAt(t[i..])
    ensures HasQuickStart(t)
  {
  }

  lemma QuickStartExtended(x: string, b: string)
    requires HasQuickStart(x)
    ensures HasQuickStart(x + b)
  {
    var i :| 0 <= i <= |x| && QuickStartAt(x[i..]);
    QuickStartAtExtended(x[i..], b);
    SuffixOfAppend(x, b, i);
    QuickStartFound(x + b, i);
  }

  lemma QuickStartAtExtended(x: string, b: string)
    requires QuickStartAt(x)
    ensures QuickStartAt(x + b)
  {
    assert (x + b)[..5] == x[..5];
    assert (x + b)[5] == x[5];
    assert (x + b)[5..] == x[5..] + b;
    PrefixKeptByStrip(x[5..], b, "start");
  }

  lemma PrefixKeptByStrip(x: string, b: string, w: string)
    requires w != [] && !IsSpace(w[0]) && StartsWith(LStrip(x), w)
    ensures StartsWith(LStrip(x + b), w)
  {
    var k := SpaceRun(x);
    var s := x + b;
    assert LStrip(x) == x[k..];
    assert x[k..][0] == w[0];
    assert forall i :: 0 <= i <= k ==> s[i] == x[i];
    SpaceRunIs(s, k);
    assert s[k..][..|w|] == x[k..][..|w|];
  }

  /** A "Next" link is navigation. */
  lemma NextIsNavigation()
    ensures IsNavigationText("Next")
  {
    var l := Lower("Next");
    assert l[0] == 'n' && l[1] == 'e' && l[2] == 'x' && l[3] == 't';
    assert l == NavWords[7];
    assert StartsWith(l, NavWords[7]);
    ContainsAt(l, NavWords[7], 0);
  }

  /** "Quick Start" is navigation whatever whitespace separates the words. */
  lemma QuickStartIsNavigation()
    ensures IsNavigationText("Quick \tStart")
  {
    var l := Lower("Quick \tStart");
    assert l == "quick \tstart" by {
      assert l[0] == 'q' && l[6] == '\t' && l[7] == 's';
    }
    QuickStartLiteralFound();
  }

  lemma QuickStartLiteral()
    ensures QuickStartAt("quick \tstart")
  {
    assert "quick \tstart" == "quick" + " \t" + "start";
    QuickStartWithGap(" \t");
  }

  lemma QuickStartLiteralFound()
    ensures HasQuickStart("quick \tstart")
  {
    QuickStartLiteral();
    assert "quick \tstart"[0..] == "quick \tstart";
    QuickStartFound("quick \tstart", 0);
  }

  /** `quick`, a non-empty whitespace gap and `start` match `quick\s+start`. */
  lemma QuickStartWithGap(gap: string)
    requires gap != [] && forall i :: 0 <= i < |gap| ==> IsSpace(gap[i])
    ensures QuickStartAt("quick" + gap + "start")
  {
    var t := "quick" + gap + "start";
    assert t[..5] == "quick";
    assert t[5] == gap[0];
    assert t[5..] == gap + "start";
    LStripSpaces(gap, "start");
  }

  /** Non-empty strings without whitespace. */
  predicate SingleWords(kws: seq<string>) {
    forall j :: 0 <= j < |kws| ==> kws[j] != [] && NoSpace(kws[j])
  }

  /** Words without whitespace none of which, lower-cased, holds one of `kws` or `start`. */
  predicate KeywordFreeWords(ws: seq<string>, kws: seq<string>) {
    forall i :: 0 <= i < |ws| ==>
      NoSpace(ws[i]) && !MentionsAny(Lower(ws[i]), kws) && !Contains(Lower(ws[i]), "start")
  }

  /** Detection is local to words, except for `quick\s+start`: space-separated words
      none of which holds a keyword, or `start`, once lower-cased, are not navigation. */
  lemma NavigationFromWords(ws: seq<string>)
    requires KeywordFreeWords(ws, NavWords)
    ensures !IsNavigationText(JoinSep(ws, " "))
  {
    NavWordsAreWords();
    LoweredJoinFree(ws, NavWords);
  }

  /** Lower-cased words free of single-word keywords and of `start` join into lower-cased
      text free of them and of `quick\s+start`. */
  lemma LoweredJoinFree(ws: seq<string>, kws: seq<string>)
    requires SingleWords(kws) && KeywordFreeWords(ws, kws)
    ensures !MentionsAny(Lower(JoinSep(ws, " ")), kws)
    ensures !HasQuickStart(Lower(JoinSep(ws, " ")))
  {
    var lw := LowerAll(ws);
    LoweredWordsFree(ws, kws);
    LoweredWordsFree(ws, ["start"]);
    NoKeywordsInJoin(lw, kws);
    NoQuickStartInJoin(lw);
    LowerJoin(ws);
  }

  /** What no lower-cased word holds, no word of `LowerAll` holds. */
  lemma LoweredWordsFree(ws: seq<string>, kws: seq<string>)
    requires forall i :: 0 <= i < |ws| ==> NoSpace(ws[i])
    requires forall i :: 0 <= i < |ws| ==> !MentionsAny(Lower(ws[i]), kws)
    ensures forall i :: 0 <= i < |ws| ==> NoSpace(LowerAll(ws)[i])
    ensures forall i, j :: 0 <= i < |ws| && 0 <= j < |kws| ==> !Contains(LowerAll(ws)[i], kws[j])
  {
  }

  /** Keywords that are single words, found in none of the words, are not in their join. */
  lemma NoKeywordsInJoin(ws: seq<string>, kws: seq<string>)
    requires SingleWords(kws)
    requires forall i, j :: 0 <= i < |ws| && 0 <= j < |kws| ==> !Contains(ws[i], kws[j])
    ensures !MentionsAny(JoinSep(ws, " "), kws)
  {
    forall j | 0 <= j < |kws| ensures !Contains(JoinSep(ws, " "), kws[j]) {
      NotInJoin(ws, kws[j]);
    }
  }

  lemma NoQuickStartInJoin(ws: seq<string>)
    requires forall i :: 0 <= i < |ws| ==> NoSpace(ws[i])
    requires forall i :: 0 <= i < |ws| ==> !Contains(ws[i], "start")
    ensures var l := JoinSep(ws, " "); !HasQuickStart(l)
  {
    var l := JoinSep(ws, " ");
    StartIsOneWord();
    NotInJoin(ws, "start");
    QuickStartHasStart(l);
  }

  lemma NavWordsAreWords()
    ensures SingleWords(NavWords)
  {
    forall j | 0 <= j < |NavWords| ensures NavWords[j] != [] && NoSpace(NavWords[j]) {
      LettersNoSpace(NavWords[j]);
    }
  }

  /** A string of lower-case ASCII letters holds no whitespace. */
  lemma LettersNoSpace(w: string)
    requires forall k :: 0 <= k < |w| ==> 'a' <= w[k] <= 'z'
    ensures NoSpace(w)
  {
  }

  lemma StartIsOneWord()
    ensures NoSpace("start")
  {
  }

  /** The lower-cased words. */
  function LowerAll(ws: seq<string>): (r: seq<string>)
    ensures |r| == |ws|
    ensures forall i :: 0 <= i < |ws| ==> r[i] == Lower(ws[i])
    ensures forall i :: 0 <= i < |ws| ==> NoSpace(ws[i]) ==> NoSpace(r[i])
  {
    seq(|ws|, i requires 0 <= i < |ws| => Lower(ws[i]))
  }

  lemma {:induction false} LowerJoin(ws: seq<string>)
    ensures Lower(JoinSep(ws, " ")) == JoinSep(LowerAll(ws), " ")
    decreases |ws|
  {
    var lowered := LowerAll(ws);
    if |ws| == 1 {
    } else if |ws| > 1 {
      LowerJoin(ws[1..]);
      assert lowered[1..] == LowerAll(ws[1..]);
      LowerAppend(ws[0] + " ", JoinSep(ws[1..], " "));
      LowerAppend(ws[0], " ");
      assert Lower(" ") == " ";
    } else {
      assert Lower([]) == [];
    }
  }

  /** A word-free pattern found in a space-separated list of words is found in one word. */
  lemma {:induction false} NotInJoin(ws: seq<string>, k: string)
    requires k != [] && NoSpace(k)
    requires forall i :: 0 <= i < |ws| ==> !Contains(ws[i], k)
    ensures !Contains(JoinSep(ws, " "), k)
    decreases |ws|
  {
    if |ws| == 0 {
      ContainsIff([], k);
    } else if |ws| > 1 {
      NotInJoin(ws[1..], k);
      NotAcrossSpace(ws[0], JoinSep(ws[1..], " "), k);
    }
  }

  lemma NotAcrossSpace(a: string, b: string, k: string)
    requires k != [] && NoSpace(k) && !Contains(a, k) && !Contains(b, k)
    ensures !Contains(a + " " + b, k)
  {
    var s := a + " " + b;
    ContainsIff(s, k);
    ContainsIff(a, k);
    ContainsIff(b, k);
    forall i | 0 <= i <= |s| ensures !StartsWith(s[i..], k) {
      if i + |k| <= |a| {
        assert !StartsWith(a[i..], k);
        assert forall j :: i <= j < i + |k| ==> s[j] == a[j];
        SameWindow(s, a, i, |k|);
      } else if i > |a| {
        SuffixAfterPrefix(a + " ", b, i - |a| - 1);
      } else if i + |k| <= |s| {
        assert s[i..][..|k|][|a| - i] == s[|a|];
        assert !IsSpace(k[|a| - i]);
      }
    }
  }

  /** `quick\s+start` can only match where `start` occurs. */
  lemma QuickStartHasStart(t: string)
    ensures HasQuickStart(t) ==> Contains(t, "start")
  {
    if HasQuickStart(t) {
      var i :| 0 <= i <= |t| && QuickStartAt(t[i..]);
      var s := t[i..];
      var u := LStrip(s[5..]);
      var at := i + |s| - |u|;
      assert t[at..] == u;
      ContainsAt(t, "start", at);
    }
  }

  /** Text shorter than every keyword is never navigation. */
  lemma ShortTextNotNavigation(text: string)
    requires |text| < 4
    ensures !IsNavigationText(text)
  {
    var l := Lower(text);
    forall k | 0 <= k < |NavWords| ensures !Contains(l, NavWords[k]) {
      assert |NavWords[k]| >= 4;
    }
    NoQuickStartInShort(l);
  }

  lemma NoQuickStartInShort(t: string)
    requires |t| < 11
    ensures !HasQuickStart(t)
  {
    forall i | 0 <= i <= |t| ensures !QuickStartAt(t[i..]) {
      var s := t[i..];
      if |s| > 5 && IsSpace(s[5]) {
        assert |LStrip(s[5..])| < |s[5..]|;
      }
    }
  }


  // ---------------------------------------------------------------------------
  // ensure_url_scheme
  // ---------------------------------------------------------------------------

  predicate HasScheme(url: string) {
    StartsWith(url, "http://") || StartsWith(url, "https://")
  }

  /** `ensure_url_scheme(url)`: URLs without `http://` or `https://` get `https://`
      in place of their leading slashes. */
  function EnsureUrlScheme(url: string): (r: string)
    ensures HasScheme(r)
    ensures HasScheme(url) ==> r == url
    ensures !HasScheme(url) ==> r == "https://" + LStripBy(url, IsSlash)
  {
    if HasScheme(url) then url else "https://" + LStripBy(url, IsSlash)
  }

  /** Completing a URL twice is completing it once. */
  lemma EnsureUrlSchemeIdempotent(url: string)
    ensures EnsureUrlScheme(EnsureUrlScheme(url)) == EnsureUrlScheme(url)
  {
  }

  // ---------------------------------------------------------------------------
  // clean_markdown
  // ---------------------------------------------------------------------------

  /** The length of the digit run at the start of `t`. */
  function DigitRun(t: string): (k: nat)
    ensures k <= |t|
  {
    |t| - |LStripBy(t, IsDigit)|
  }

  /** `\*\*\s+```` replaced by `**```` (the greedy `\s+` must end at the fence). */
  function BoldThenFenceAt(t: string): Option<Match> {
    if StartsWith(t, "**") then
      var k := SpaceRun(t[2..]);
      if k > 0 && StartsWith(t[2 + k..], "```") then Some(Match(k + 5, "**```")) else None
    else None
  }

  /** ```` ```\s+\*\* ```` replaced by ```` ```** ````. */
  function FenceThenBoldAt(t: string): Option<Match> {
    if StartsWith(t, "```") then
      var k := SpaceRun(t[3..]);
      if k > 0 && StartsWith(t[3 + k..], "**") then Some(Match(k + 5, "```**")) else None
    else None
  }

  /** `(\d+)\.\s+\*\*` replaced by `\1. **`: the number keeps, the gap becomes one space. */
  function NumberedBoldAt(t: string): Option<Match> {
    var d := DigitRun(t);
    if d > 0 && d < |t| && t[d] == '.' then
      var k := SpaceRun(t[d + 1..]);
      if k > 0 && StartsWith(t[d + 1 + k..], "**") then Some(Match(d + 1 + k + 2, t[..d] + ". **"))
      else None
    else None
  }

  /** `clean_markdown(text)` of `modules/utils.py`. */
  function CleanMarkdown(text: string): (r: string)
    ensures r == [] || (!IsSpace(r[0]) && !IsSpace(r[|r| - 1]))
  {
    if text == [] then []
    else
      var t1 := Sub(text, BlankLinesAt);
      var t2 := ReplaceAll(t1, "`` ```", "```");
      var t3 := ReplaceAll(t2, "``` `", "```");
      var t4 := Sub(t3, BoldThenFenceAt);
      var t5 := Sub(t4, FenceThenBoldAt);
      var t6 := Sub(t5, NumberedBoldAt);
      Strip(t6)
  }

  /** Markdown without backticks, asterisks or blank-line runs is only stripped. */
  lemma CleanMarkdownPlain(text: string)
    requires '`' !in text && '*' !in text && !Contains(text, "\n\n\n")
    ensures CleanMarkdown(text) == Strip(text)
  {
    if text != [] {
      BlankLinesAbsent(text);
      BacktickFixesInert(text);
      BoldFixesInert(text);
    }
  }

  lemma BacktickFixesInert(text: string)
    requires '`' !in text
    ensures ReplaceAll(ReplaceAll(text, "`` ```", "```"), "``` `", "```") == text
  {
    NotContainsChar(text, '`');
    ContainsPrefixNotIn(text, "`` ```", "`");
    ReplaceAbsent(text, "`` ```", "```");
    ContainsPrefixNotIn(text, "``` `", "`");
    ReplaceAbsent(text, "``` `", "```");
  }

  lemma BoldFixesInert(text: string)
    requires '*' !in text && '`' !in text
    ensures Sub(Sub(Sub(text, BoldThenFenceAt), FenceThenBoldAt), NumberedBoldAt) == text
  {
    NoPrefixWithout(text, "**");
    SubNoHit(text, BoldThenFenceAt);
    NoPrefixWithout(text, "```");
    SubNoHit(text, FenceThenBoldAt);
    forall i | 0 <= i < |text| ensures !Hit(NumberedBoldAt, text[i..]) {
      NoNumberedBold(text[i..]);
    }
    SubNoHit(text, NumberedBoldAt);
  }

  lemma NoNumberedBold(t: string)
    requires '*' !in t
    ensures NumberedBoldAt(t).None?
  {
    var d := DigitRun(t);
    if d > 0 && d < |t| && t[d] == '.' {
      var k := SpaceRun(t[d + 1..]);
      NoPrefixWithout(t, "**");
      assert t[d + 1 + k..] == t[d + 1..][k..];
    }
  }

  // ---------------------------------------------------------------------------
  // process_code and process_markdown_content
  // ---------------------------------------------------------------------------

  /** One of the keywords `process_code` takes for Python occurs in `code`. */
  predicate LooksLikePython(code: string) {
    Contains(code, "import") || Contains(code, "def") || Contains(code, "class") || Contains(code, "async")
  }

  /** `process_code(code_text)`: the stripped code in a fenced block, tagged `python`
      exactly when a Python keyword occurs in it. */
  function ProcessCode(codeText: string): (r: string)
    ensures Unfenced(r) == Some((if LooksLikePython(Strip(codeText)) then "python" else "", Strip(codeText)))
  {
    var code := Strip(codeText);
    var lang := if LooksLikePython(code) then "python" else "";
    UnfencedFenced(lang, code);
    Fenced(lang, code)
  }

  /** ```` ```(.*?)``` ```` with `re.DOTALL`: the lazy body ends at the first closing fence. */
  function CodeSpanAt(t: string): Option<Match> {
    if StartsWith(t, "```") then
      match FindFirst(t[3..], "```")
      case Some(j) => Some(Match(j + 6, ProcessCode(t[3..3 + j])))
      case None => None
    else None
  }

  /** `process_markdown_content(content)` of `modules/utils.py`. */
  function ProcessMarkdownContent(content: string): string {
    if content == [] then [] else Sub(CleanMarkdown(content), CodeSpanAt)
  }

  /** Markdown whose cleaned form holds no fence is returned cleaned and otherwise unchanged. */
  lemma ProcessWithoutFences(content: string)
    requires !Contains(CleanMarkdown(content), "```")
    ensures ProcessMarkdownContent(content) == CleanMarkdown(content)
  {
    var s := CleanMarkdown(content);
    ContainsIff(s, "```");
    forall i | 0 <= i < |s| ensures !Hit(CodeSpanAt, s[i..]) {
    }
    SubNoHit(s, CodeSpanAt);
  }

  /** The first fenced span is re-formatted by `process_code`; the text before it is
      kept and scanning continues after its closing fence. */
  lemma CodeSpanRewritten(a: string, body: string, c: string)
    requires !Contains(a + "``", "```") && !Contains(body + "``", "```")
    ensures var s := a + ("```" + body + "```" + c); Sub(s, CodeSpanAt) == a + ProcessCode(body) + Sub(c, CodeSpanAt)
  {
    var rest := "```" + body + "```" + c;
    assert rest[..2] == "``";
    TextBeforeFence(a, rest);
    FirstCodeSpan(body, c);
  }

  lemma TextBeforeFence(a: string, rest: string)
    requires !Contains(a + "``", "```") && StartsWith(rest, "``")
    ensures Sub(a + rest, CodeSpanAt) == a + Sub(rest, CodeSpanAt)
  {
    NoFenceBefore(a, rest);
    SubSkip(a, rest, CodeSpanAt);
  }

  /** No fence starts inside `a` when `a + "``"` holds none and two backticks follow. */
  lemma NoFenceBefore(a: string, rest: string)
    requires !Contains(a + "``", "```") && StartsWith(rest, "``")
    ensures forall i :: 0 <= i < |a| ==> !Hit(CodeSpanAt, (a + rest)[i..])
  {
    var s := a + rest;
    var u := a + "``";
    ContainsIff(u, "```");
    forall i | 0 <= i < |a| ensures !StartsWith(s[i..], "```") {
      assert !StartsWith(u[i..], "```");
      if |s| - i >= 3 {
        forall j | i <= j < i + 3 ensures s[j] == u[j] {
          if j >= |a| {
            assert s[j] == rest[..2][j - |a|];
          }
        }
        SameWindow(s, u, i, 3);
      }
    }
  }


  /** A fence, a body free of fences and the closing fence are one span. */
  lemma FirstCodeSpan(body: string, c: string)
    requires !Contains(body + "``", "```")
    ensures Sub("```" + body + "```" + c, CodeSpanAt) == ProcessCode(body) + Sub(c, CodeSpanAt)
  {
    var t := "```" + body + "```" + c;
    assert StartsWith(t, "```");
    assert t[3..] == body + "```" + c;
    assert "```"[..2] == "``";
    FindFirstAfter(body, "```", c);
    assert t[3..3 + |body|] == body;
    assert CodeSpanAt(t) == Some(Match(|body| + 6, ProcessCode(body)));
    assert Hit(CodeSpanAt, t);
    assert t[|body| + 6..] == c;
  }
}
