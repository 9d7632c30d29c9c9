/**
 * Python's `str` primitives used by the crawler, over `string` (= `seq<char>`).
 *
 * Whitespace is Python's notion (`str.isspace()`, `str.strip()`, `str.split()`
 * and the regular-expression class `\s` all agree on it); letters, digits and
 * `\w` are the ASCII ones.
 */
module Strings {
  import opened Wrappers

  // ---------------------------------------------------------------------------
  // Character classes
  // ---------------------------------------------------------------------------

  /** Python's whitespace: U+0009-U+000D, U+001C-U+0020, U+0085, U+00A0, U+1680,
      U+2000-U+200A, U+2028, U+2029, U+202F, U+205F and U+3000. */
  predicate IsSpace(c: char) {
    ('\t' <= c <= '\r') || ('\U{1C}' <= c <= ' ') || c == '\U{85}' || c == '\U{A0}'
    || c == '\U{1680}' || ('\U{2000}' <= c <= '\U{200A}') || c == '\U{2028}'
    || c == '\U{2029}' || c == '\U{202F}' || c == '\U{205F}' || c == '\U{3000}'
  }

  predicate IsDigit(c: char) { '0' <= c <= '9' }

  predicate IsUpper(c: char) { 'A' <= c <= 'Z' }

  predicate IsLetter(c: char) { 'a' <= c <= 'z' || IsUpper(c) }

  /** `str.isalnum()` on one character (ASCII). */
  predicate IsAlnum(c: char) { IsLetter(c) || IsDigit(c) }

  /** The regular-expression class `\w` (ASCII). */
  predicate IsWordChar(c: char) { IsAlnum(c) || c == '_' }

  /** `str.lower()` on one character (ASCII). */
  function LowerChar(c: char): (d: char)
    ensures !IsUpper(d)
    ensures IsUpper(c) ==> d as int == c as int + 32
    ensures !IsUpper(c) ==> d == c
  {
    if IsUpper(c) then (c as int + 32) as char else c
  }

  /** `str.lower()` (ASCII). */
  function Lower(s: string): (r: string)
    ensures |r| == |s|
    ensures forall i :: 0 <= i < |s| ==> r[i] == LowerChar(s[i])
  {
    seq(|s|, i requires 0 <= i < |s| => LowerChar(s[i]))
  }

  lemma LowerAppend(a: string, b: string)
    ensures Lower(a + b) == Lower(a) + Lower(b)
  {
    assert forall i :: 0 <= i < |a + b| ==> Lower(a + b)[i] == (Lower(a) + Lower(b))[i];
  }

  /** A prefix of a suffix is a slice. */
  lemma PrefixOfSuffix<T>(s: seq<T>, a: nat, n: nat)
    requires a + n <= |s|
    ensures s[a..][..n] == s[a..a + n]
  {
  }

  /** Concatenation is associative. */
  lemma AppendAssoc<T>(a: seq<T>, b: seq<T>, c: seq<T>)
    ensures a + b + c == a + (b + c)
  {
  }

  /** Putting the head back in front of the tail and a continuation. */
  lemma HeadTailAppend<T>(x: seq<T>, z: seq<T>)
    requires x != []
    ensures [x[0]] + (x[1..] + z) == x + z
  {
    assert [x[0]] + x[1..] == x;
  }

  /** Two strings agreeing on `n` characters from `i` have the same window there. */
  lemma SameWindow(u: string, v: string, i: nat, n: nat)
    requires i + n <= |u| && i + n <= |v|
    requires forall j :: i <= j < i + n ==> u[j] == v[j]
    ensures u[i..][..n] == v[i..][..n]
  {
    assert forall j :: 0 <= j < n ==> u[i..][..n][j] == u[i + j];
    assert forall j :: 0 <= j < n ==> v[i..][..n][j] == v[i + j];
  }

  /** A suffix of `x + b` starting inside `x`. */
  lemma SuffixOfAppend(x: string, b: string, i: nat)
    requires i <= |x|
    ensures (x + b)[i..] == x[i..] + b
  {
  }

  /** A suffix of `a + y` starting inside `y`. */
  lemma SuffixAfterPrefix(a: string, y: string, i: nat)
    requires i <= |y|
    ensures (a + y)[|a| + i..] == y[i..]
  {
  }

  // ---------------------------------------------------------------------------
  // Prefixes, substrings, first occurrences
  // ---------------------------------------------------------------------------

  /** `s.startswith(p)`. */
  predicate StartsWith(s: string, p: string) {
    |p| <= |s| && s[..|p|] == p
  }

  /** `s.endswith(p)`. */
  predicate EndsWith(s: string, p: string) {
    |p| <= |s| && s[|s| - |p|..] == p
  }

  /** A string whose first character differs from the pattern's does not start with it. */
  lemma NotStartsWithHead(s: string, p: string)
    requires p != [] && (s == [] || s[0] != p[0])
    ensures !StartsWith(s, p)
  {
    if |p| <= |s| {
      assert s[..|p|][0] != p[0];
    }
  }

  /** The first occurrence of `p` in `s` at or after index `i`, if any. */
  function FindFrom(s: string, p: string, i: nat): (r: Option<nat>)
    requires i <= |s|
    ensures r.Some? ==> i <= r.value && r.value + |p| <= |s| && StartsWith(s[r.value..], p)
    ensures r.Some? ==> forall j :: i <= j < r.value ==> !StartsWith(s[j..], p)
    ensures r.None? ==> forall j :: i <= j <= |s| ==> !StartsWith(s[j..], p)
    decreases |s| - i
  {
    if StartsWith(s[i..], p) then Some(i)
    else if i == |s| then None
    else FindFrom(s, p, i + 1)
  }

  /** The index of the first occurrence of `p` in `s` (`s.find(p)`), if any. */
  function FindFirst(s: string, p: string): (r: Option<nat>)
    ensures r.Some? ==> r.value + |p| <= |s| && s[r.value..r.value + |p|] == p
    ensures r.Some? ==> forall j :: 0 <= j < r.value ==> !StartsWith(s[j..], p)
    ensures r.None? ==> forall j :: 0 <= j <= |s| ==> !StartsWith(s[j..], p)
  {
    var r := FindFrom(s, p, 0);
    assert r.Some? ==> s[r.value..][..|p|] == s[r.value..r.value + |p|];
    r
  }

  /** `p in s` for strings. */
  predicate Contains(s: string, p: string) {
    FindFirst(s, p).Some?
  }

  /** An occurrence of `p` at a given position means `p in s`. */
  lemma ContainsAt(s: string, p: string, i: nat)
    requires i <= |s| && StartsWith(s[i..], p)
    ensures Contains(s, p)
  {
  }

  /** Containment seen through positions, in both directions. */
  lemma ContainsIff(s: string, p: string)
    ensures Contains(s, p) <==> exists i :: 0 <= i <= |s| && StartsWith(s[i..], p)
  {
    if Contains(s, p) {
      var i := FindFirst(s, p).value;
      assert s[i..][..|p|] == s[i..i + |p|];
    }
  }

  /** A string found inside a piece is found inside anything built around it. */
  lemma ContainsInContext(a: string, x: string, b: string, p: string)
    requires Contains(x, p)
    ensures Contains(a + x + b, p)
  {
    var i := FindFirst(x, p).value;
    var s := a + x + b;
    assert s[|a| + i..][..|p|] == x[i..i + |p|];
    ContainsAt(s, p, |a| + i);
  }

  /** An occurrence of a longer pattern contains one of its prefix. */
  lemma ContainsPrefixOfPattern(s: string, p: string, q: string)
    requires StartsWith(p, q) && Contains(s, p)
    ensures Contains(s, q)
  {
    var i := FindFirst(s, p).value;
    assert s[i..][..|q|] == p[..|q|];
    ContainsAt(s, q, i);
  }

  /** An occurrence with none before it is the first one. */
  lemma FindFirstIs(s: string, p: string, k: nat)
    requires k <= |s| && StartsWith(s[k..], p)
    requires forall j :: 0 <= j < k ==> !StartsWith(s[j..], p)
    ensures FindFirst(s, p) == Some(k)
  {
    var r := FindFirst(s, p);
    if r.Some? {
      assert s[r.value..][..|p|] == s[r.value..r.value + |p|];
    }
  }

  /** When `x + p[..|p| - 1]` holds no `p`, the first `p` of `x + p + y` is the one after `x`. */
  lemma FindFirstAfter(x: string, p: string, y: string)
    requires p != [] && !Contains(x + p[..|p| - 1], p)
    ensures FindFirst(x + p + y, p) == Some(|x|)
  {
    var s := x + p + y;
    var xp := x + p[..|p| - 1];
    assert s[|x|..][..|p|] == p;
    forall j | 0 <= j < |x| ensures !StartsWith(s[j..], p) {
      assert !StartsWith(xp[j..], p);
      assert s[j..][..|p|] == xp[j..][..|p|] by {
        forall i | j <= i < j + |p| ensures s[i] == xp[i] {
          if i >= |x| {
            assert s[i] == p[i - |x|];
          }
        }
      }
    }
    FindFirstIs(s, p, |x|);
  }

  /** A one-character pattern occurs only where its character does. */
  lemma NotContainsChar(s: string, c: char)
    requires c !in s
    ensures !Contains(s, [c])
  {
    ContainsIff(s, [c]);
    forall i | 0 <= i < |s| ensures !StartsWith(s[i..], [c]) {
      assert s[i..][..1] == [s[i]];
    }
  }

  /** No suffix starts with a pattern whose first character does not occur. */
  lemma NoPrefixWithout(t: string, p: string)
    requires p != [] && p[0] !in t
    ensures forall i :: 0 <= i <= |t| ==> !StartsWith(t[i..], p)
  {
    forall i | 0 <= i <= |t| ensures !StartsWith(t[i..], p) {
      if i < |t| && |p| <= |t| - i {
        assert t[i..][..|p|][0] == t[i];
      }
    }
  }

  /** A pattern starting with a string that does not occur does not occur either. */
  lemma ContainsPrefixNotIn(s: string, p: string, q: string)
    requires StartsWith(p, q) && !Contains(s, q)
    ensures !Contains(s, p)
  {
    if Contains(s, p) {
      ContainsPrefixOfPattern(s, p, q);
    }
  }

  /** A pattern holding a character that does not occur does not occur. */
  lemma NotContainsMissingChar(s: string, p: string, k: nat)
    requires k < |p| && p[k] !in s
    ensures !Contains(s, p)
  {
    ContainsIff(s, p);
    forall i | 0 <= i <= |s| ensures !StartsWith(s[i..], p) {
      if |p| <= |s| - i {
        assert s[i..][..|p|][k] == s[i + k];
      }
    }
  }

  /** Dropping the first character cannot create an occurrence. */
  lemma NotContainsTail(s: string, p: string)
    requires s != [] && !Contains(s, p)
    ensures !Contains(s[1..], p)
  {
    ContainsIff(s[1..], p);
    assert forall j :: 0 <= j <= |s| - 1 ==> s[1..][j..] == s[1 + j..];
  }

  // ---------------------------------------------------------------------------
  // Stripping
  // ---------------------------------------------------------------------------

  /** `s.lstrip(chars)`: drops the longest prefix of characters satisfying `drop`. */
  function LStripBy(s: string, drop: char -> bool): (r: string)
    ensures |r| <= |s| && r == s[|s| - |r|..]
    ensures r == [] || !drop(r[0])
    ensures forall i :: 0 <= i < |s| - |r| ==> drop(s[i])
    decreases |s|
  {
    if s != [] && drop(s[0]) then LStripBy(s[1..], drop) else s
  }

  /** The length of the whitespace run at the start of `t`. */
  function SpaceRun(t: string): (k: nat)
    ensures k <= |t|
    ensures forall i :: 0 <= i < k ==> IsSpace(t[i])
    ensures k < |t| ==> !IsSpace(t[k])
    decreases |t|
  {
    if t != [] && IsSpace(t[0]) then 1 + SpaceRun(t[1..]) else 0
  }

  /** A whitespace prefix followed by the end or by a non-space is the whitespace run. */
  lemma {:induction false} SpaceRunIs(t: string, j: nat)
    requires j <= |t| && (forall i :: 0 <= i < j ==> IsSpace(t[i]))
    requires j < |t| ==> !IsSpace(t[j])
    ensures SpaceRun(t) == j
    decreases j
  {
    if j > 0 {
      assert forall i :: 0 <= i < j - 1 ==> t[1..][i] == t[i + 1];
      SpaceRunIs(t[1..], j - 1);
    }
  }

  /** The length of the whitespace run at the end of `t`. */
  function TrailingSpaceRun(t: string): (k: nat)
    ensures k <= |t|
    ensures forall i :: |t| - k <= i < |t| ==> IsSpace(t[i])
    ensures k < |t| ==> !IsSpace(t[|t| - k - 1])
    decreases |t|
  {
    if t != [] && IsSpace(t[|t| - 1]) then 1 + TrailingSpaceRun(t[..|t| - 1]) else 0
  }

  /** `s.lstrip()`: `s` without its leading whitespace. */
  function LStrip(s: string): (r: string)
    ensures |r| <= |s| && r == s[|s| - |r|..]
    ensures r == [] || !IsSpace(r[0])
    ensures forall i :: 0 <= i < |s| - |r| ==> IsSpace(s[i])
  {
    s[SpaceRun(s)..]
  }

  /** `s.rstrip()`: `s` without its trailing whitespace. */
  function RStrip(s: string): (r: string)
    ensures |r| <= |s| && r == s[..|r|]
    ensures r == [] || !IsSpace(r[|r| - 1])
    ensures forall i :: |r| <= i < |s| ==> IsSpace(s[i])
  {
    s[..|s| - TrailingSpaceRun(s)]
  }

  /** Leading whitespace before a word is what `lstrip()` removes. */
  lemma LStripSpaces(gap: string, w: string)
    requires forall i :: 0 <= i < |gap| ==> IsSpace(gap[i])
    requires w != [] && !IsSpace(w[0])
    ensures LStrip(gap + w) == w
  {
    var s := gap + w;
    assert forall i :: 0 <= i < |gap| ==> s[i] == gap[i];
    SpaceRunIs(s, |gap|);
    assert s[|gap|..] == w;
  }

  /** `s.strip()`. */
  function Strip(s: string): (r: string)
    ensures |r| <= |s|
    ensures r == [] || (!IsSpace(r[0]) && !IsSpace(r[|r| - 1]))
  {
    RStrip(LStrip(s))
  }

  /** The stripped string is a slice of the original between whitespace-only margins. */
  lemma StripSlice(s: string)
    ensures var lead := |s| - |LStrip(s)|;
      && lead + |Strip(s)| <= |s|
      && Strip(s) == s[lead..lead + |Strip(s)|]
      && (forall i :: 0 <= i < lead ==> IsSpace(s[i]))
      && (forall i :: lead + |Strip(s)| <= i < |s| ==> IsSpace(s[i]))
  {
    var l := LStrip(s);
    var r := Strip(s);
    var lead := |s| - |l|;
    assert r == RStrip(l) && r == l[..|r|];
    assert r == s[lead..lead + |r|];
    forall i | lead + |r| <= i < |s| ensures IsSpace(s[i]) {
      assert s[i] == l[i - lead];
    }
  }

  /** Text is empty after stripping exactly when it is all whitespace. */
  lemma StripEmpty(s: string)
    ensures Strip(s) == [] <==> forall i :: 0 <= i < |s| ==> IsSpace(s[i])
  {
    StripSlice(s);
  }

  /** A string without surrounding whitespace is its own `strip()`. */
  lemma StripNoop(s: string)
    requires s == [] || (!IsSpace(s[0]) && !IsSpace(s[|s| - 1]))
    ensures Strip(s) == s
  {
    assert SpaceRun(s) == 0;
    assert s[0..] == s;
    assert TrailingSpaceRun(s) == 0;
    assert s[..|s|] == s;
  }

  predicate IsSlash(c: char) { c == '/' }

  /** `s.rstrip(chars)`: drops the longest suffix of characters satisfying `drop`. */
  function RStripBy(s: string, drop: char -> bool): (r: string)
    ensures |r| <= |s| && r == s[..|r|]
    ensures r == [] || !drop(r[|r| - 1])
    ensures forall i :: |r| <= i < |s| ==> drop(s[i])
    decreases |s|
  {
    if s != [] && drop(s[|s| - 1]) then RStripBy(s[..|s| - 1], drop) else s
  }

  /** `s.strip(chars)`: a slice of `s` neither starting nor ending with a dropped character. */
  function StripBy(s: string, drop: char -> bool): (r: string)
    ensures |r| <= |s|
    ensures r == [] || (!drop(r[0]) && !drop(r[|r| - 1]))
    ensures forall c :: c in r ==> c in s
  {
    var l := LStripBy(s, drop);
    var r := RStripBy(l, drop);
    assert forall c :: c in r ==> c in l;
    r
  }

  // ---------------------------------------------------------------------------
  // Splitting and joining
  // ---------------------------------------------------------------------------

  /** `sep.join(parts)`. */
  function JoinSep(parts: seq<string>, sep: string): string
    decreases |parts|
  {
    if parts == [] then []
    else if |parts| == 1 then parts[0]
    else parts[0] + sep + JoinSep(parts[1..], sep)
  }

  /** Joining a nonempty list after a first piece puts the separator between them. */
  lemma JoinSepCons(w: string, tail: seq<string>, sep: string)
    requires tail != []
    ensures JoinSep([w] + tail, sep) == w + (sep + JoinSep(tail, sep))
  {
    assert ([w] + tail)[1..] == tail;
  }

  /** `s.split(c)` for a one-character separator: never empty and separator-free
      pieces (joining them gives `s` back: see `SplitOnJoin`). */
  function SplitOn(s: string, c: char): (parts: seq<string>)
    ensures |parts| >= 1
    ensures forall i :: 0 <= i < |parts| ==> c !in parts[i]
    decreases |s|
  {
    if s == [] then [[]]
    else
      var rest := SplitOn(s[1..], c);
      if s[0] == c then [[]] + rest
      else [[s[0]] + rest[0]] + rest[1..]
  }

  /** Joining the pieces with the separator gives back the split text. */
  lemma {:induction false} SplitOnJoin(s: string, c: char)
    ensures JoinSep(SplitOn(s, c), [c]) == s
    decreases |s|
  {
    if s != [] {
      var rest := SplitOn(s[1..], c);
      SplitOnJoin(s[1..], c);
      if s[0] == c {
        assert JoinSep([[]] + rest, [c]) == [] + [c] + JoinSep(rest, [c]);
      } else {
        var parts := [[s[0]] + rest[0]] + rest[1..];
        assert parts[1..] == rest[1..];
        assert JoinSep(parts, [c]) == [s[0]] + JoinSep(rest, [c]);
      }
    }
  }

  /** The first piece of `s.split(c)` is the text before the first `c`. */
  lemma {:induction false} SplitOnHead(s: string, c: char)
    ensures SplitOn(s, c)[0] <= s
    ensures |SplitOn(s, c)[0]| < |s| ==> s[|SplitOn(s, c)[0]|] == c
    decreases |s|
  {
    if s != [] && s[0] != c {
      SplitOnHead(s[1..], c);
      var h := SplitOn(s[1..], c)[0];
      assert SplitOn(s, c)[0] == [s[0]] + h;
      assert s == [s[0]] + s[1..];
    }
  }

  lemma SplitOnFirst(s: string, c: char)
    requires s != [] && s[0] != c
    ensures SplitOn(s, c)[0] != [] && SplitOn(s, c)[0][0] == s[0]
  {
  }

  /** Text that does not end with the separator has a last piece ending as it does. */
  lemma {:induction false} SplitOnLast(s: string, c: char)
    requires s != [] && s[|s| - 1] != c
    ensures var parts := SplitOn(s, c); var last := parts[|parts| - 1];
      last != [] && last[|last| - 1] == s[|s| - 1]
    decreases |s|
  {
    if |s| > 1 {
      SplitOnLast(s[1..], c);
    }
  }

  /** Splitting the separator-joined pieces gives the pieces back. */
  lemma {:induction false} SplitJoin(parts: seq<string>, c: char)
    requires |parts| >= 1
    requires forall i :: 0 <= i < |parts| ==> c !in parts[i]
    ensures SplitOn(JoinSep(parts, [c]), c) == parts
    decreases |parts|, |parts[0]|
  {
    var s := JoinSep(parts, [c]);
    if parts[0] == [] {
      if |parts| == 1 {
      } else {
        assert s == [c] + JoinSep(parts[1..], [c]);
        assert s[1..] == JoinSep(parts[1..], [c]);
        SplitJoin(parts[1..], c);
        assert parts == [[]] + parts[1..];
      }
    } else {
      var tail := [parts[0][1..]] + parts[1..];
      assert tail[1..] == parts[1..];
      assert JoinSep(tail, [c]) == s[1..] by {
        if |parts| == 1 {
        } else {
          assert s == parts[0] + [c] + JoinSep(parts[1..], [c]);
        }
      }
      assert forall i :: 0 <= i < |tail| ==> c !in tail[i] by {
        assert c !in parts[0];
        assert forall k :: 0 <= k < |parts[0][1..]| ==> parts[0][1..][k] == parts[0][k + 1];
      }
      SplitJoin(tail, c);
      assert s[0] == parts[0][0];
      assert [parts[0][0]] + parts[0][1..] == parts[0];
    }
  }

  /** Length of the leading run of non-whitespace characters. */
  function WordLen(t: string): (k: nat)
    ensures k <= |t|
    ensures forall i :: 0 <= i < k ==> !IsSpace(t[i])
    ensures k < |t| ==> IsSpace(t[k])
    decreases |t|
  {
    if t == [] || IsSpace(t[0]) then 0 else 1 + WordLen(t[1..])
  }

  predicate NoSpace(w: string) {
    forall k :: 0 <= k < |w| ==> !IsSpace(w[k])
  }

  /** `s.split()` with no argument: the maximal runs of non-whitespace. */
  function Words(s: string): (ws: seq<string>)
    ensures forall i :: 0 <= i < |ws| ==> ws[i] != [] && NoSpace(ws[i])
    decreases |s|
  {
    var t := s[SpaceRun(s)..];
    if t == [] then []
    else
      var k := WordLen(t);
      assert NoSpace(t[..k]) by {
        forall i | 0 <= i < k ensures !IsSpace(t[..k][i]) {
          assert t[..k][i] == t[i];
        }
      }
      [t[..k]] + Words(t[k..])
  }

  /** Words of a space-separated list of words are those words. */
  lemma {:induction false} WordsOfJoin(ws: seq<string>)
    requires forall i :: 0 <= i < |ws| ==> ws[i] != [] && NoSpace(ws[i])
    ensures Words(JoinSep(ws, " ")) == ws
    decreases |ws|
  {
    if |ws| == 1 {
      WordsCons(ws[0], []);
      assert ws[0] + [] == ws[0];
    } else if |ws| > 1 {
      WordsOfJoin(ws[1..]);
      WordsOfJoinStep(ws[0], ws[1..]);
      assert [ws[0]] + ws[1..] == ws;
    }
  }

  lemma WordsOfJoinStep(w: string, tail: seq<string>)
    requires w != [] && NoSpace(w) && tail != []
    requires Words(JoinSep(tail, " ")) == tail
    ensures Words(JoinSep([w] + tail, " ")) == [w] + tail
  {
    var j := JoinSep(tail, " ");
    JoinSepCons(w, tail, " ");
    calc {
      Words(JoinSep([w] + tail, " "));
      Words(w + (" " + j));
      { WordsCons(w, " " + j); }
      [w] + Words(" " + j);
      { WordsAfterSpace(j); }
      [w] + tail;
    }
  }

  /** A word followed by whitespace (or nothing) is the first word. */
  lemma WordsCons(w: string, rest: string)
    requires w != [] && NoSpace(w)
    requires rest == [] || IsSpace(rest[0])
    ensures Words(w + rest) == [w] + Words(rest)
  {
    var s := w + rest;
    assert s[..|w|] == w && s[|w|..] == rest;
    LeadingWord(w, s);
    assert s[SpaceRun(s)..] == s;
  }

  lemma WordsAfterSpace(t: string)
    ensures Words(" " + t) == Words(t)
  {
    var s := " " + t;
    assert s[1..] == t;
    assert SpaceRun(s) == 1 + SpaceRun(t);
    assert s[SpaceRun(s)..] == t[SpaceRun(t)..];
  }

  lemma LeadingWord(w: string, s: string)
    requires w != [] && NoSpace(w) && StartsWith(s, w)
    requires |s| == |w| || IsSpace(s[|w|])
    ensures WordLen(s) == |w|
    decreases |w|
  {
    if |w| > 1 {
      LeadingWord(w[1..], s[1..]);
    }
  }

  // ---------------------------------------------------------------------------
  // Replacing and filtering
  // ---------------------------------------------------------------------------

  /** `s.replace(p, r)`: every non-overlapping occurrence, left to right. */
  function ReplaceAll(s: string, p: string, r: string): string
    requires p != []
    decreases |s|
  {
    if |s| < |p| then s
    else if s[..|p|] == p then r + ReplaceAll(s[|p|..], p, r)
    else [s[0]] + ReplaceAll(s[1..], p, r)
  }

  /** A prefix in which no occurrence starts is copied by `replace`. */
  lemma {:induction false} ReplaceSkip(x: string, y: string, p: string, r: string)
    requires p != []
    requires forall i :: 0 <= i < |x| ==> !StartsWith((x + y)[i..], p)
    ensures ReplaceAll(x + y, p, r) == x + ReplaceAll(y, p, r)
    decreases |x|
  {
    var s := x + y;
    if x == [] {
      assert s == y;
    } else if |s| < |p| {
      ReplaceShort(s, p, r);
      ReplaceShort(y, p, r);
    } else {
      assert s[0..] == s;
      assert s[..|p|] != p;
      var tail := x[1..] + y;
      assert s[1..] == tail;
      forall i | 0 <= i < |x| - 1 ensures !StartsWith(tail[i..], p) {
        assert tail[i..] == s[i + 1..];
      }
      ReplaceSkip(x[1..], y, p, r);
      assert ReplaceAll(s, p, r) == [s[0]] + ReplaceAll(tail, p, r);
      assert [x[0]] + x[1..] == x;
    }
  }

  lemma ReplaceShort(s: string, p: string, r: string)
    requires p != [] && |s| < |p|
    ensures ReplaceAll(s, p, r) == s
  {
  }

  /** Nothing is replaced when the pattern does not occur. */
  lemma {:induction false} ReplaceAbsent(s: string, p: string, r: string)
    requires p != [] && !Contains(s, p)
    ensures ReplaceAll(s, p, r) == s
    decreases |s|
  {
    if |s| >= |p| {
      assert s[0..][..|p|] != p;
      NotContainsTail(s, p);
      ReplaceAbsent(s[1..], p, r);
    }
  }

  /** A prefix free of the replacement's characters, seen in the output, was in the input. */
  lemma {:induction false} ReplacePrefixFromInput(s: string, p: string, r: string, q: string)
    requires p != [] && r != []
    requires forall k :: 0 <= k < |q| ==> q[k] !in r
    ensures StartsWith(ReplaceAll(s, p, r), q) ==> StartsWith(s, q)
    decreases |s|
  {
    if q != [] && |s| >= |p| {
      var out := ReplaceAll(s, p, r);
      if s[..|p|] == p {
        assert out[0] == r[0];
      } else {
        var rest := ReplaceAll(s[1..], p, r);
        assert out == [s[0]] + rest;
        assert forall k :: 0 <= k < |q[1..]| ==> q[1..][k] == q[k + 1];
        ReplacePrefixFromInput(s[1..], p, r, q[1..]);
        assert StartsWith(out, q) ==> StartsWith(rest, q[1..]) by {
          if StartsWith(out, q) {
            assert rest[..|q| - 1] == out[1..|q|];
          }
        }
        assert StartsWith(s[1..], q[1..]) && s[0] == q[0] ==> StartsWith(s, q) by {
          if StartsWith(s[1..], q[1..]) && s[0] == q[0] {
            assert s[..|q|] == [s[0]] + s[1..][..|q| - 1];
          }
        }
      }
    }
  }

  /** After replacing every `p` with text that shares no character with `p`, no `p` is left. */
  lemma {:induction false} ReplaceLeavesNone(s: string, p: string, r: string)
    requires p != [] && r != []
    requires forall k :: 0 <= k < |p| ==> p[k] !in r
    ensures !Contains(ReplaceAll(s, p, r), p)
    decreases |s|
  {
    if |s| >= |p| {
      if s[..|p|] == p {
        ReplaceLeavesNone(s[|p|..], p, r);
        NoneAfterReplacement(r, ReplaceAll(s[|p|..], p, r), p);
      } else {
        ReplaceLeavesNone(s[1..], p, r);
        assert forall k :: 0 <= k < |p[1..]| ==> p[1..][k] == p[k + 1];
        ReplacePrefixFromInput(s[1..], p, r, p[1..]);
        assert !(s[0] == p[0] && StartsWith(s[1..], p[1..])) by {
          assert s[..|p|] == [s[0]] + s[1..][..|p| - 1];
        }
        NoneAfterKeptChar(s[0], ReplaceAll(s[1..], p, r), p);
      }
    }
  }

  lemma NoneAfterReplacement(r: string, rest: string, p: string)
    requires p != [] && p[0] !in r && !Contains(rest, p)
    ensures !Contains(r + rest, p)
  {
    var out := r + rest;
    ContainsIff(out, p);
    ContainsIff(rest, p);
    forall i | 0 <= i <= |out| ensures !StartsWith(out[i..], p) {
      if i < |r| {
        assert out[i] == r[i];
      } else {
        assert out[i..] == rest[i - |r|..];
      }
    }
  }

  lemma NoneAfterKeptChar(c: char, rest: string, p: string)
    requires p != [] && !Contains(rest, p)
    requires !(c == p[0] && StartsWith(rest, p[1..]))
    ensures !Contains([c] + rest, p)
  {
    var out := [c] + rest;
    ContainsIff(out, p);
    ContainsIff(rest, p);
    forall i | 0 <= i <= |out| ensures !StartsWith(out[i..], p) {
      if i == 0 {
        assert out[1..] == rest;
      } else {
        assert out[i..] == rest[i - 1..];
      }
    }
  }

  /** The characters of `s` satisfying `keep`, in order (`re.sub(r'[...]+', '', s)`
      with the complementary class, or a generator join). */
  function Filter(s: string, keep: char -> bool): (r: string)
    ensures |r| <= |s|
    ensures forall i :: 0 <= i < |r| ==> keep(r[i])
    ensures forall c :: c in r <==> c in s && keep(c)
    decreases |s|
  {
    if s == [] then []
    else if keep(s[0]) then [s[0]] + Filter(s[1..], keep)
    else Filter(s[1..], keep)
  }

  /** `s.split(sep)` for a non-empty separator: the pieces between the leftmost
      non-overlapping occurrences of `sep`. */
  function SplitBy(s: string, sep: string): (parts: seq<string>)
    requires sep != []
    ensures |parts| >= 1
    decreases |s|
  {
    var f := FindFirst(s, sep);
    if f.None? then [s] else [s[..f.value]] + SplitBy(s[f.value + |sep|..], sep)
  }

  /** The split at a first occurrence. */
  lemma SplitByAt(s: string, sep: string, k: nat)
    requires sep != [] && FindFirst(s, sep) == Some(k)
    ensures SplitBy(s, sep) == [s[..k]] + SplitBy(s[k + |sep|..], sep)
  {
  }

  /** The split of text without the separator. */
  lemma SplitByNone(s: string, sep: string)
    requires sep != [] && FindFirst(s, sep).None?
    ensures SplitBy(s, sep) == [s]
  {
  }

  /** A text is its three consecutive slices. */
  lemma ThreeSlices<T>(s: seq<T>, k: nat, n: nat)
    requires k + n <= |s|
    ensures s == s[..k] + (s[k..k + n] + s[k + n..])
  {
  }

  /** Joining the pieces with the separator gives back the split text. */
  lemma {:induction false} SplitByJoin(s: string, sep: string)
    requires sep != []
    ensures JoinSep(SplitBy(s, sep), sep) == s
    decreases |s|
  {
    var f := FindFirst(s, sep);
    if f.None? {
      SplitByNone(s, sep);
    } else {
      var k := f.value;
      SplitByAt(s, sep, k);
      var rest := s[k + |sep|..];
      SplitByJoin(rest, sep);
      JoinSepCons(s[..k], SplitBy(rest, sep), sep);
      ThreeSlices(s, k, |sep|);
    }
  }

  /** No piece holds the separator. */
  lemma {:induction false} SplitByPieces(s: string, sep: string)
    requires sep != []
    ensures forall i :: 0 <= i < |SplitBy(s, sep)| ==> !Contains(SplitBy(s, sep)[i], sep)
    decreases |s|
  {
    var f := FindFirst(s, sep);
    if f.None? {
      SplitByNone(s, sep);
      NotContainsFrom(s, sep, |s|);
      assert s[..|s|] == s;
    } else {
      var k := f.value;
      SplitByAt(s, sep, k);
      var rest := s[k + |sep|..];
      SplitByPieces(rest, sep);
      NotContainsFrom(s, sep, k);
    }
  }

  /** A prefix before which no occurrence of `p` starts does not contain `p`. */
  lemma NotContainsFrom(s: string, p: string, k: nat)
    requires p != [] && k <= |s| && forall j :: 0 <= j < k ==> !StartsWith(s[j..], p)
    ensures !Contains(s[..k], p)
  {
    ContainsIff(s[..k], p);
    forall j | 0 <= j <= k ensures !StartsWith(s[..k][j..], p) {
      if j + |p| <= k {
        assert s[..k][j..][..|p|] == s[j..][..|p|];
      }
    }
  }

  /** Filtering text whose every character is kept gives the text back. */
  lemma {:induction false} FilterAll(s: string, keep: char -> bool)
    requires forall i :: 0 <= i < |s| ==> keep(s[i])
    ensures Filter(s, keep) == s
    decreases |s|
  {
    if s != [] {
      assert forall i :: 0 <= i < |s| - 1 ==> s[1..][i] == s[i + 1];
      FilterAll(s[1..], keep);
      assert s == [s[0]] + s[1..];
    }
  }

  /** `s[:n]`. */
  function Take<T>(s: seq<T>, n: nat): (r: seq<T>)
    ensures |r| == if n < |s| then n else |s|
    ensures r == s[..|r|]
  {
    if n < |s| then s[..n] else s
  }

  /** `s[-n:]` for `n > 0`. */
  function TakeLast<T>(s: seq<T>, n: nat): (r: seq<T>)
    ensures |r| == if n < |s| then n else |s|
    ensures r == s[|s| - |r|..]
  {
    if n < |s| then s[|s| - n..] else s
  }
}
