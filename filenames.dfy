/**
 * The two file-name builders of `websum.py`: `sanitize_filename`, which turns a URL
 * into `<host>_<segment>_<segment>...` with unsafe characters replaced and long
 * segments shortened, and `get_safe_filename`, which turns a page title into a
 * lower-case name of letters, digits, `_` and `-`.
 *
 * `urlparse` is outside the model: both take the URL's host and path as given.
 */
module Filenames {
  import opened Wrappers
  import opened Strings
  import opened Regex

  // ---------------------------------------------------------------------------
  // sanitize_filename
  // ---------------------------------------------------------------------------

  /** The class `[<>:"/\\|?*]`. */
  predicate IsUnsafe(c: char) {
    c == '<' || c == '>' || c == ':' || c == '"' || c == '/' || c == '\\' || c == '|' || c == '?' || c == '*'
  }

  /** No character of `s` is unsafe. */
  ghost predicate Safe(s: string) {
    forall k :: 0 <= k < |s| ==> !IsUnsafe(s[k])
  }

  /** `re.sub(r'[<>:"/\\|?*]', '_', part)`. */
  function ReplaceUnsafe(s: string): (r: string)
    ensures |r| == |s| && Safe(r)
    ensures forall i :: 0 <= i < |s| ==> r[i] == if IsUnsafe(s[i]) then '_' else s[i]
  {
    seq(|s|, i requires 0 <= i < |s| => if IsUnsafe(s[i]) then '_' else s[i])
  }

  /** The longest segment kept whole. */
  const MaxPartLength: nat := 50

  /** One segment cleaned: its text before `?`, unsafe characters replaced, and if longer
      than 50 characters its first 47 followed by `...`. */
  function CleanPart(part: string): (r: string)
    ensures |r| <= MaxPartLength && Safe(r)
  {
    var p := ReplaceUnsafe(SplitOn(part, '?')[0]);
    if |p| > MaxPartLength then p[..47] + "..." else p
  }

  /** A segment longer than 50 characters once cleaned keeps its first 47 and gets `...`;
      a shorter one is kept whole. */
  lemma CleanPartLength(part: string)
    ensures var p := ReplaceUnsafe(SplitOn(part, '?')[0]);
      && (|p| > MaxPartLength ==> |CleanPart(part)| == 50 && CleanPart(part) == p[..47] + "..." && EndsWith(CleanPart(part), "..."))
      && (|p| <= MaxPartLength ==> CleanPart(part) == p)
  {
    var p := ReplaceUnsafe(SplitOn(part, '?')[0]);
    if |p| > MaxPartLength {
      var r := p[..47] + "...";
      assert r[|r| - 3..] == "...";
    }
  }

  /** A segment of at most 50 safe characters is its own cleaning. */
  lemma CleanPartKeeps(part: string)
    requires |part| <= MaxPartLength && Safe(part)
    ensures CleanPart(part) == part
  {
    assert forall k :: 0 <= k < |part| ==> part[k] != '?';
    SplitOnNone(part, '?');
    assert ReplaceUnsafe(part) == part;
  }

  /** `s.split(c)` of a text without `c` is the text alone. */
  lemma {:induction false} SplitOnNone(s: string, c: char)
    requires c !in s
    ensures SplitOn(s, c) == [s]
    decreases |s|
  {
    if s != [] {
      assert forall k :: 0 <= k < |s| - 1 ==> s[1..][k] == s[k + 1];
      SplitOnNone(s[1..], c);
      assert s == [s[0]] + s[1..];
    }
  }

  /** `parsed.path.strip('/').split('/')`, or `['index']` when its first segment is empty,
      which happens only for a path of slashes alone (the list itself is never empty). */
  function PathParts(path: string): (parts: seq<string>)
    ensures |parts| >= 1
  {
    var parts := SplitOn(StripBy(path, IsSlash), '/');
    if parts[0] == [] then ["index"] else parts
  }

  /** A path of slashes alone gives the single segment `index`; any other path its
      segments between slashes. */
  lemma PathPartsIndex(path: string)
    ensures StripBy(path, IsSlash) == [] ==> PathParts(path) == ["index"]
    ensures StripBy(path, IsSlash) != [] ==> PathParts(path) == SplitOn(StripBy(path, IsSlash), '/')
  {
    var s := StripBy(path, IsSlash);
    if s != [] {
      SplitOnFirst(s, '/');
    }
  }

  /** Every segment cleaned, in order. */
  function CleanParts(parts: seq<string>): (r: seq<string>)
    ensures |r| == |parts|
    ensures forall i :: 0 <= i < |parts| ==> r[i] == CleanPart(parts[i])
  {
    seq(|parts|, i requires 0 <= i < |parts| => CleanPart(parts[i]))
  }

  /** The name `sanitize_filename` gives a URL with host `domain` and path `path`. */
  function SanitizedName(domain: string, path: string): string {
    domain + "_" + JoinSep(CleanParts(PathParts(path)), "_")
  }

  /** `sanitize_filename(url)`, for `urlparse(url)` giving the host `domain` and the path
      `path`. */
  method SanitizeFilename(domain: string, path: string) returns (r: string)
    ensures r == SanitizedName(domain, path)
  {
    var parts := PathParts(path);
    var clean: seq<string> := [];
    var i := 0;
    while i < |parts|
      invariant 0 <= i <= |parts| && |clean| == i
      invariant forall j :: 0 <= j < i ==> clean[j] == CleanPart(parts[j])
    {
      clean := clean + [CleanPart(parts[i])];
      i := i + 1;
    }
    assert clean == CleanParts(parts);
    r := domain + "_" + JoinSep(clean, "_");
  }

  /** Joining safe segments with `_` gives safe text. */
  lemma {:induction false} JoinSafe(parts: seq<string>)
    requires forall i :: 0 <= i < |parts| ==> Safe(parts[i])
    ensures Safe(JoinSep(parts, "_"))
    decreases |parts|
  {
    if |parts| > 1 {
      JoinSafe(parts[1..]);
      var t := JoinSep(parts[1..], "_");
      assert JoinSep(parts, "_") == parts[0] + "_" + t;
      SafeAppend(parts[0] + "_", t);
      SafeAppend(parts[0], "_");
    }
  }

  lemma SafeAppend(a: string, b: string)
    requires Safe(a) && Safe(b)
    ensures Safe(a + b)
  {
    assert forall k :: 0 <= k < |a + b| ==> (a + b)[k] == if k < |a| then a[k] else b[k - |a|];
  }

  /** The name is the host, `_`, and then safe characters only. */
  lemma SanitizedShape(domain: string, path: string)
    ensures var r := SanitizedName(domain, path);
      StartsWith(r, domain + "_") && Safe(r[|domain| + 1..])
  {
    var parts := CleanParts(PathParts(path));
    JoinSafe(parts);
    var r := SanitizedName(domain, path);
    assert r == (domain + "_") + JoinSep(parts, "_");
    PrefixRest(domain + "_", JoinSep(parts, "_"));
  }

  lemma PrefixRest(a: string, b: string)
    ensures (a + b)[..|a|] == a && (a + b)[|a|..] == b
  {
  }

  /** A path of slashes alone, the empty path included, gives `<host>_index`. */
  lemma SanitizedIndex(domain: string, path: string)
    requires StripBy(path, IsSlash) == []
    ensures SanitizedName(domain, path) == domain + "_index"
  {
    PathPartsIndex(path);
    CleanPartKeeps("index");
    assert CleanParts(PathParts(path)) == ["index"];
  }

  // ---------------------------------------------------------------------------
  // get_safe_filename
  // ---------------------------------------------------------------------------

  /** The class `[-–—]`: hyphen, en dash, em dash. */
  predicate IsDash(c: char) {
    c == '-' || c == '\U{2013}' || c == '\U{2014}'
  }

  /** The length of the digit run at the start of `t` (`\d`, ASCII). */
  function DigitRun(t: string): (k: nat)
    ensures k <= |t|
    ensures forall i :: 0 <= i < k ==> IsDigit(t[i])
    ensures k < |t| ==> !IsDigit(t[k])
    decreases |t|
  {
    if t != [] && IsDigit(t[0]) then 1 + DigitRun(t[1..]) else 0
  }

  /** The length of the word-character run at the start of `t` (`\w`, ASCII). */
  function WordRun(t: string): (k: nat)
    ensures k <= |t|
    ensures forall i :: 0 <= i < k ==> IsWordChar(t[i])
    decreases |t|
  {
    if t != [] && IsWordChar(t[0]) then 1 + WordRun(t[1..]) else 0
  }

  /** `v\d+\.\d+\.\d+\w*` at the start of `u`: the greedy digit runs cannot give back
      a digit a `.` would need, and the last `\d+\w*` together take the whole run of
      word characters. */
  function VersionAt(u: string): (r: Option<nat>)
    ensures r.Some? ==> 0 < r.value <= |u| && '.' in u
  {
    if u == [] || u[0] != 'v' then None
    else
      var d1 := DigitRun(u[1..]);
      var p1 := 1 + d1;
      if d1 == 0 || p1 >= |u| || u[p1] != '.' then None
      else
        var d2 := DigitRun(u[p1 + 1..]);
        var p2 := p1 + 1 + d2;
        if d2 == 0 || p2 >= |u| || u[p2] != '.' then None
        else if DigitRun(u[p2 + 1..]) == 0 then None
        else Some(p2 + 1 + WordRun(u[p2 + 1..]))
  }

  /** `\(.*?\)` at the start of `u`: up to the first `)`, which no newline may precede. */
  function ParenAt(u: string): (r: Option<nat>)
    ensures r.Some? ==> 0 < r.value <= |u| && u[0] == '('
  {
    if u == [] || u[0] != '(' then None
    else match FindFirst(u[1..], ")")
      case None => None
      case Some(k) => if '\n' in u[1..][..k] then None else Some(k + 2)
  }

  /** `(?:v\d+\.\d+\.\d+\w*|Documentation|\(.*?\))`, the alternatives tried in order. */
  function SuffixWordAt(u: string): (r: Option<nat>)
    ensures r.Some? ==> 0 < r.value <= |u| && ('.' in u || u[0] == 'D' || u[0] == '(')
  {
    match VersionAt(u)
    case Some(n) => Some(n)
    case None =>
      if StartsWith(u, "Documentation") then Some(|"Documentation"|) else ParenAt(u)
  }

  /** `\s*[-–—]\s*(?:...)` replaced by nothing. Both `\s*` take their whole run: giving
      back a space leaves a space where a dash or an alternative's first character is
      needed. */
  function DashSuffixAt(t: string): (r: Option<Match>)
    ensures r.Some? ==> r.value.replacement == [] && 0 < r.value.len <= |t|
    ensures r.Some? ==> '.' in t || 'D' in t || '(' in t
  {
    var a := SpaceRun(t);
    if a < |t| && IsDash(t[a]) then
      var b := a + 1 + SpaceRun(t[a + 1..]);
      match SuffixWordAt(t[b..])
      case None => None
      case Some(n) =>
        assert forall c :: c in t[b..] ==> c in t;
        Some(Match(b + n, ""))
    else None
  }

  /** A trailing suffix the title rule matches whole (such as ` - Documentation` or
      ` — v1.2.3rc1`) is cut from a dash-free title that does not end in a space. */
  lemma SuffixDropped(w: string, y: string)
    requires forall i :: 0 <= i < |w| ==> !IsDash(w[i])
    requires w == [] || !IsSpace(w[|w| - 1])
    requires DashSuffixAt(y) == Some(Match(|y|, ""))
    ensures Sub(w + y, DashSuffixAt) == w
  {
    forall i | 0 <= i < |w| ensures !Hit(DashSuffixAt, (w + y)[i..]) {
      NoDashAhead(w, y, i);
    }
    SubSkip(w, y, DashSuffixAt);
    SubReplaces(y, DashSuffixAt);
    assert y[|y|..] == [];
    assert w + [] == w;
  }

  /** Inside a dash-free title that does not end in a space no match starts. */
  lemma NoDashAhead(w: string, y: string, i: nat)
    requires forall k :: 0 <= k < |w| ==> !IsDash(w[k])
    requires w != [] && !IsSpace(w[|w| - 1]) && i < |w|
    ensures !Hit(DashSuffixAt, (w + y)[i..])
  {
    var t := (w + y)[i..];
    var a := SpaceRun(t);
    assert t[|w| - 1 - i] == w[|w| - 1];
    assert a <= |w| - 1 - i;
    assert t[a] == w[i + a];
  }

  /** The last non-empty segment of `parts`, if any. */
  function LastNonEmpty(parts: seq<string>): (r: Option<string>)
    ensures r.Some? ==> r.value != [] && r.value in parts
    ensures r.Some? ==> exists i :: 0 <= i < |parts| && parts[i] == r.value && forall j :: i < j < |parts| ==> parts[j] == []
    ensures r.None? ==> forall i :: 0 <= i < |parts| ==> parts[i] == []
    decreases |parts|
  {
    if parts == [] then None
    else if parts[|parts| - 1] != [] then Some(parts[|parts| - 1])
    else
      var init := parts[..|parts| - 1];
      assert forall i :: 0 <= i < |init| ==> init[i] == parts[i];
      LastNonEmpty(init)
  }

  /** The title used: the given one unless absent or empty, else the last path segment,
      else `untitled`. */
  function TitleOrDefault(title: Option<string>, path: string): (r: string)
    ensures r != []
  {
    if title.Some? && title.value != [] then title.value
    else match LastNonEmpty(SplitOn(StripBy(path, IsSlash), '/'))
      case Some(p) => p
      case None => "untitled"
  }

  /** The class `[a-zA-Z0-9_-]`. */
  predicate IsNameChar(c: char) {
    IsAlnum(c) || c == '_' || c == '-'
  }

  predicate IsUnderscore(c: char) { c == '_' }

  /** A name of lower-case letters, digits, `_` and `-`, without two `_` in a row. */
  ghost predicate SafeName(r: string) {
    && (forall i :: 0 <= i < |r| ==> IsNameChar(r[i]) && !IsUpper(r[i]))
    && (forall i :: 0 <= i < |r| - 1 ==> !(r[i] == '_' && r[i + 1] == '_'))
  }

  /** `get_safe_filename(title, url)`, for `urlparse(url).path` being `path`. */
  function GetSafeFilename(title: Option<string>, path: string): (r: string)
    ensures SafeName(r)
  {
    var spaced := CollapseRuns(Strip(Sub(TitleOrDefault(title, path), DashSuffixAt)), IsSpace, '_');
    var kept := Filter(Lower(spaced), IsNameChar);
    LowerKept(spaced);
    CollapseRuns(kept, IsUnderscore, '_')
  }

  /** What survives the filter of lowered text has no upper-case letter. */
  lemma LowerKept(s: string)
    ensures forall c :: c in Filter(Lower(s), IsNameChar) ==> IsNameChar(c) && !IsUpper(c)
  {
    forall c | c in Filter(Lower(s), IsNameChar) ensures !IsUpper(c) {
      var l := Lower(s);
      assert c in l;
      var k :| 0 <= k < |l| && l[k] == c;
      assert c == LowerChar(s[k]);
    }
  }

  /** A safe name is its own safe file name: the title rule needs a `.`, `D` or `(`, and
      every later pass leaves such a name alone. */
  lemma SafeNameFixed(t: string, path: string)
    requires t != [] && SafeName(t)
    ensures GetSafeFilename(Some(t), path) == t
  {
    TitleRuleInert(t);
    SpacingInert(t);
    LowerFilterInert(t);
    CollapseRunsSingle(t, IsUnderscore, '_');
  }

  /** The title rule finds nothing in a safe name. */
  lemma TitleRuleInert(t: string)
    requires SafeName(t)
    ensures Sub(t, DashSuffixAt) == t
  {
    forall i | 0 <= i < |t| ensures !Hit(DashSuffixAt, t[i..]) {
      NoSuffixMarks(t, i);
    }
    SubNoHit(t, DashSuffixAt);
  }

  /** Stripping and the `\s+` rule leave a safe name alone. */
  lemma SpacingInert(t: string)
    requires SafeName(t)
    ensures CollapseRuns(Strip(t), IsSpace, '_') == t
  {
    forall i | 0 <= i < |t| ensures !IsSpace(t[i]) {
      NameCharNotSpace(t[i]);
    }
    StripNoop(t);
    CollapseRunsNone(t, IsSpace, '_');
  }

  lemma NameCharNotSpace(c: char)
    requires IsNameChar(c)
    ensures !IsSpace(c)
  {
  }

  /** Lowering and the character filter leave a safe name alone. */
  lemma LowerFilterInert(t: string)
    requires SafeName(t)
    ensures Filter(Lower(t), IsNameChar) == t
  {
    assert Lower(t) == t;
    FilterAll(t, IsNameChar);
  }

  /** No suffix of a safe name holds `.`, `D` or `(`. */
  lemma NoSuffixMarks(t: string, i: nat)
    requires SafeName(t) && i < |t|
    ensures '.' !in t[i..] && 'D' !in t[i..] && '(' !in t[i..]
  {
    forall c | c in t[i..] ensures c != '.' && c != 'D' && c != '(' {
      var k :| i <= k < |t| && t[k] == c;
    }
  }

  /** `get_safe_filename` is idempotent on the names it makes, whatever the URL. */
  lemma GetSafeFilenameIdempotent(title: Option<string>, path: string, path': string)
    ensures var r := GetSafeFilename(title, path);
      r != [] ==> GetSafeFilename(Some(r), path') == r
  {
    var r := GetSafeFilename(title, path);
    if r != [] {
      SafeNameFixed(r, path');
    }
  }
}
