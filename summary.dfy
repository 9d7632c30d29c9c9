/**
 * The selection logic of `create_condensed_summary` in `websum.py` and the
 * metadata projection of `save_to_knowledge_base`.
 *
 * The readable text (`extract_readable_text`) and the raw technical terms
 * (`extract_technical_terms`) are inputs: both are regular-expression passes
 * outside this model.
 */
module Summary {
  import opened Wrappers
  import opened Strings
  import Utils

  // ---------------------------------------------------------------------------
  // Paragraphs and the first-n-qualifying selection
  // ---------------------------------------------------------------------------

  /** `[p for p in text.split('\n\n') if p.strip()]`. */
  function Paragraphs(text: string): (ps: seq<string>)
    ensures forall i :: 0 <= i < |ps| ==> Strip(ps[i]) != []
  {
    NonBlank(SplitBy(text, "\n\n"))
  }

  /** The pieces whose stripped text is not empty, in order. */
  function NonBlank(parts: seq<string>): (ps: seq<string>)
    ensures forall i :: 0 <= i < |ps| ==> Strip(ps[i]) != [] && ps[i] in parts
    ensures forall p :: p in parts && Strip(p) != [] ==> p in ps
    decreases |parts|
  {
    if parts == [] then []
    else (if Strip(parts[0]) != [] then [parts[0]] else []) + NonBlank(parts[1..])
  }

  /** The items satisfying `keep`, in order. */
  function Qualifying(xs: seq<string>, keep: string -> bool): (r: seq<string>)
    ensures |r| <= |xs|
    ensures forall i :: 0 <= i < |r| ==> keep(r[i]) && r[i] in xs
    decreases |xs|
  {
    if xs == [] then []
    else Qualifying(xs[..|xs| - 1], keep) + (if keep(xs[|xs| - 1]) then [xs[|xs| - 1]] else [])
  }

  /** Qualifying one more item. */
  lemma QualifyingNext(xs: seq<string>, i: nat, keep: string -> bool)
    requires i < |xs|
    ensures Qualifying(xs[..i + 1], keep) == Qualifying(xs[..i], keep) + (if keep(xs[i]) then [xs[i]] else [])
  {
    assert xs[..i + 1][..i] == xs[..i];
  }

  /** The qualifying items of a prefix open those of the whole. */
  lemma {:induction false} QualifyingPrefix(xs: seq<string>, i: nat, keep: string -> bool)
    requires i <= |xs|
    ensures Qualifying(xs[..i], keep) <= Qualifying(xs, keep)
    decreases |xs| - i
  {
    if i < |xs| {
      QualifyingPrefix(xs, i + 1, keep);
      QualifyingNext(xs, i, keep);
      PrefixOfAppend(Qualifying(xs[..i], keep), if keep(xs[i]) then [xs[i]] else [], Qualifying(xs, keep));
    } else {
      assert xs[..i] == xs;
    }
  }

  lemma PrefixOfAppend(a: seq<string>, b: seq<string>, c: seq<string>)
    requires a + b <= c
    ensures a <= c
  {
    assert c[..|a|] == (a + b)[..|a|];
  }

  /** The first `n` qualifying items are fixed once a prefix holds `n` of them. */
  lemma TakeSettled(xs: seq<string>, i: nat, keep: string -> bool, n: nat)
    requires i <= |xs| && |Qualifying(xs[..i], keep)| >= n
    ensures Take(Qualifying(xs, keep), n) == Take(Qualifying(xs[..i], keep), n)
  {
    QualifyingPrefix(xs, i, keep);
  }

  /** The first `n` qualifying items: at most `n`, each qualifying and among `xs`; fewer
      than `n` only when no other item qualifies. */
  lemma FirstQualifying(xs: seq<string>, keep: string -> bool, n: nat)
    ensures var r := Take(Qualifying(xs, keep), n);
      && |r| <= n
      && (forall i :: 0 <= i < |r| ==> keep(r[i]) && r[i] in xs)
      && (|r| < n ==> r == Qualifying(xs, keep))
  {
  }

  // ---------------------------------------------------------------------------
  // create_condensed_summary
  // ---------------------------------------------------------------------------

  /** The longest core message, in words. */
  const CoreWords: nat := 25
  /** The most key points and technical terms kept. */
  const MaxItems: nat := 5

  /** A paragraph of at least ten words can give the core message. */
  predicate Substantial(p: string) {
    |Words(p)| >= 10
  }

  /** `s.endswith(('.', ',', '!', '?'))`. */
  predicate EndsSentence(s: string) {
    s != [] && (s[|s| - 1] == '.' || s[|s| - 1] == ',' || s[|s| - 1] == '!' || s[|s| - 1] == '?')
  }

  /** The first 25 words joined by spaces, and `...` unless that ends a sentence. */
  function CoreOf(p: string): string {
    var j := JoinSep(Take(Words(p), CoreWords), " ");
    if EndsSentence(j) then j else j + "..."
  }

  /** The core message: that of the first substantial paragraph, or "". */
  function CoreMessage(ps: seq<string>): string
    decreases |ps|
  {
    if ps == [] then ""
    else if Substantial(ps[0]) then CoreOf(ps[0])
    else CoreMessage(ps[1..])
  }

  /** A key point: at least eight words and no navigation text. */
  predicate IsKeyPoint(p: string) {
    |Words(p)| >= 8 && !Utils.IsNavigationText(p)
  }

  /** A technical term: longer than two characters and no navigation text. */
  predicate IsTerm(t: string) {
    |t| > 2 && !Utils.IsNavigationText(t)
  }

  /** `paragraphs[1:]`. */
  function Later(ps: seq<string>): seq<string> {
    if ps == [] then [] else ps[1..]
  }

  /** The loop over `paragraphs` that picks the core message: the first substantial
      paragraph's message, or "" when there is none. */
  method FindCoreMessage(ps: seq<string>) returns (core: string)
    ensures core == CoreMessage(ps)
  {
    core := "";
    var i := 0;
    while i < |ps|
      invariant 0 <= i <= |ps|
      invariant core == "" && CoreMessage(ps) == CoreMessage(ps[i..])
    {
      assert ps[i..][1..] == ps[i + 1..];
      if Substantial(ps[i]) {
        core := CoreOf(ps[i]);
        return;
      }
      i := i + 1;
    }
  }

  /** One more item for a first-`n` selection that has not yet met a qualifying item
      beyond its `n`-th. */
  lemma PickStep(xs: seq<string>, i: nat, keep: string -> bool, n: nat, picked: seq<string>)
    requires i < |xs| && picked == Take(Qualifying(xs[..i], keep), n)
    requires keep(xs[i]) ==> |picked| < n
    ensures Take(Qualifying(xs[..i + 1], keep), n) == if keep(xs[i]) then picked + [xs[i]] else picked
  {
    QualifyingNext(xs, i, keep);
    var q := Qualifying(xs[..i], keep);
    if keep(xs[i]) {
      assert picked == q;
    } else {
      assert q + [] == q;
    }
  }

  /** The key-point loop over `paragraphs[1:]`: short or navigation paragraphs are
      skipped, and the loop ends at a sixth qualifying one. */
  method PickKeyPoints(ps: seq<string>) returns (points: seq<string>)
    ensures points == Take(Qualifying(Later(ps), IsKeyPoint), MaxItems)
  {
    var rest := Later(ps);
    points := [];
    var i := 0;
    while i < |rest|
      invariant 0 <= i <= |rest|
      invariant points == Take(Qualifying(rest[..i], IsKeyPoint), MaxItems)
    {
      if !IsKeyPoint(rest[i]) {
        PickStep(rest, i, IsKeyPoint, MaxItems, points);
        i := i + 1;
        continue;
      }
      if |points| >= MaxItems {
        TakeSettled(rest, i, IsKeyPoint, MaxItems);
        return;
      }
      PickStep(rest, i, IsKeyPoint, MaxItems, points);
      points := points + [rest[i]];
      i := i + 1;
    }
    assert rest[..i] == rest;
  }

  /** The technical-term loop: it ends once five terms are kept, and skips short and
      navigation terms. */
  method PickTerms(raw: seq<string>) returns (terms: seq<string>)
    ensures terms == Take(Qualifying(raw, IsTerm), MaxItems)
  {
    terms := [];
    var i := 0;
    while i < |raw|
      invariant 0 <= i <= |raw|
      invariant terms == Take(Qualifying(raw[..i], IsTerm), MaxItems)
    {
      if |terms| >= MaxItems {
        TakeSettled(raw, i, IsTerm, MaxItems);
        return;
      }
      PickStep(raw, i, IsTerm, MaxItems, terms);
      if |raw[i]| > 2 && !Utils.IsNavigationText(raw[i]) {
        terms := terms + [raw[i]];
      }
      i := i + 1;
    }
    assert raw[..i] == raw;
  }

  /** The dictionary `create_condensed_summary` returns. */
  datatype CondensedSummary = CondensedSummary(title: string, coreMessage: string, keyPoints: seq<string>, technicalTerms: seq<string>)

  /** `create_condensed_summary(content, metadata)`, `readable` being what
      `extract_readable_text(content)` gives, `rawTerms` what `extract_technical_terms`
      gives for it, and `title` the metadata's title if present. `None` for empty text
      or text without a non-blank paragraph. */
  method CreateCondensedSummary(content: string, readable: string, rawTerms: seq<string>, title: Option<string>)
    returns (r: Option<CondensedSummary>)
    ensures r.None? <==> content == [] || readable == [] || Paragraphs(readable) == []
    ensures r.Some? ==> var ps := Paragraphs(readable);
      r.value == CondensedSummary(Strip(title.GetOr("")), CoreMessage(ps),
        Take(Qualifying(Later(ps), IsKeyPoint), MaxItems), Take(Qualifying(rawTerms, IsTerm), MaxItems))
  {
    if content == [] || readable == [] {
      return None;
    }
    var ps := Paragraphs(readable);
    if ps == [] {
      return None;
    }
    var core := FindCoreMessage(ps);
    var points := PickKeyPoints(ps);
    var terms := PickTerms(rawTerms);
    r := Some(CondensedSummary(Strip(title.GetOr("")), core, points, terms));
  }

  /** A core message ends a sentence, and is the first 25 or fewer words of its
      paragraph (at least ten), joined by spaces, possibly followed by `...`. */
  lemma CoreOfShape(p: string)
    requires Substantial(p)
    ensures EndsSentence(CoreOf(p))
    ensures var ws := Take(Words(p), CoreWords);
      var j := JoinSep(ws, " ");
      && 10 <= |Words(j)| <= CoreWords && Words(j) == ws
      && (CoreOf(p) == j || CoreOf(p) == j + "...")
  {
    var ws := Take(Words(p), CoreWords);
    assert forall i :: 0 <= i < |ws| ==> ws[i] == Words(p)[i];
    WordsOfJoin(ws);
    var j := JoinSep(ws, " ");
    if !EndsSentence(j) {
      var c := j + "...";
      assert c[|c| - 1] == '.';
    }
  }

  /** The core message is "" exactly when no paragraph is substantial. */
  lemma {:induction false} CoreMessageEmpty(ps: seq<string>)
    ensures CoreMessage(ps) == "" <==> forall i :: 0 <= i < |ps| ==> !Substantial(ps[i])
    decreases |ps|
  {
    if ps != [] {
      CoreMessageEmpty(ps[1..]);
      if Substantial(ps[0]) {
        CoreOfShape(ps[0]);
      } else {
        assert forall i :: 0 < i < |ps| ==> ps[1..][i - 1] == ps[i];
      }
    }
  }

  /** The core message is that of the first substantial paragraph. */
  lemma {:induction false} CoreMessageFirst(ps: seq<string>, k: nat)
    requires k < |ps| && Substantial(ps[k])
    requires forall i :: 0 <= i < k ==> !Substantial(ps[i])
    ensures CoreMessage(ps) == CoreOf(ps[k])
    decreases k
  {
    if k > 0 {
      assert forall i :: 0 <= i < k - 1 ==> ps[1..][i] == ps[i + 1];
      CoreMessageFirst(ps[1..], k - 1);
    }
  }

  // ---------------------------------------------------------------------------
  // save_to_knowledge_base: the metadata projection
  // ---------------------------------------------------------------------------

  /** The longest file-name title. */
  const MaxTitle: nat := 50
  /** The length of the summary excerpt. */
  const SummaryLength: nat := 500

  /** `c.isalnum() or c in " _-"` (ASCII letters and digits). */
  predicate IsTitleChar(c: char) {
    IsAlnum(c) || c == ' ' || c == '_' || c == '-'
  }

  /** `"".join(c if ... else "_" for c in title)[:50]`. */
  function SafeTitle(title: string): (r: string)
    ensures |r| == if |title| < MaxTitle then |title| else MaxTitle
    ensures forall i :: 0 <= i < |r| ==> IsTitleChar(r[i])
    ensures forall i :: 0 <= i < |r| ==> r[i] == if IsTitleChar(title[i]) then title[i] else '_'
  {
    var all := seq(|title|, i requires 0 <= i < |title| => if IsTitleChar(title[i]) then title[i] else '_');
    Take(all, MaxTitle)
  }

  /** What `save_to_knowledge_base` records about a page besides its URL, time and links. */
  datatype Projection = Projection(safeTitle: string, wordCount: nat, summary: string)

  /** The `safe_title`, `word_count` and `summary` of a page with cleaned title `title`
      and markdown `markdown`. */
  function Project(title: string, markdown: string): (r: Projection)
    ensures |r.summary| == (if |markdown| < SummaryLength then |markdown| else SummaryLength)
    ensures r.summary <= markdown
  {
    Projection(SafeTitle(title), |Words(markdown)|, Take(markdown, SummaryLength))
  }

  /** The word count of space-separated words is their number, and a title made of
      title characters only loses nothing but its length beyond 50. */
  lemma ProjectionCounts(title: string, ws: seq<string>)
    requires forall i :: 0 <= i < |ws| ==> ws[i] != [] && NoSpace(ws[i])
    requires forall i :: 0 <= i < |title| ==> IsTitleChar(title[i])
    ensures Project(title, JoinSep(ws, " ")).wordCount == |ws|
    ensures Project(title, JoinSep(ws, " ")).safeTitle == Take(title, MaxTitle)
  {
    WordsOfJoin(ws);
  }
}
