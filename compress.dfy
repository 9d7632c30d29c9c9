/**
 * `scraped_data/browser-use/compress_knowledge.py`: every page of a directory
 * is cut down to four short fields, and pages whose title and content hash to
 * an MD5 digest met before are dropped.
 *
 * The directory listing and the file contents are inputs (a `File` per listed
 * name, with the parsed JSON or nothing when opening or parsing raises); the
 * MD5 digest is a parameter; the output file and the messages are left out.
 */
module CompressKnowledge {
  import opened Wrappers
  import opened Strings
  import opened Json
  import opened Dedup

  /** The kept prefix of the content. */
  const ContentLength: nat := 2000
  /** The number of keywords kept. */
  const KeywordCount: nat := 5
  /** The kept tail of the URL. */
  const UrlTail: nat := 50

  // ---------------------------------------------------------------------------
  // compress_page
  // ---------------------------------------------------------------------------

  /** `content.get('title', '').strip()`; `None` where `strip` raises (a title that is not
      a string). */
  function TitleOf(fields: map<string, Json>): Option<string> {
    var v := Field(fields, "title");
    if v.None? then Some("")
    else if v.value.JStr? then Some(Strip(v.value.s))
    else None
  }

  /** `content.get('content', '')[:2000]`: strings and lists can be sliced, nothing else. */
  function ContentOf(fields: map<string, Json>): Option<Json> {
    var v := Field(fields, "content");
    if v.None? then Some(JStr(""))
    else if v.value.JStr? then Some(JStr(Take(v.value.s, ContentLength)))
    else if v.value.JArr? then Some(JArr(Take(v.value.items, ContentLength)))
    else None
  }

  /** The one-character strings of `s`: `list(s)`. */
  function Chars(s: string): (r: seq<Json>)
    ensures |r| == |s|
    ensures forall i :: 0 <= i < |s| ==> r[i] == JStr([s[i]])
  {
    seq(|s|, i requires 0 <= i < |s| => JStr([s[i]]))
  }

  /** `list(content.get('keywords', [])[:5])`. */
  function KeywordsOf(fields: map<string, Json>): Option<seq<Json>> {
    var v := Field(fields, "keywords");
    if v.None? then Some([])
    else if v.value.JArr? then Some(Take(v.value.items, KeywordCount))
    else if v.value.JStr? then Some(Chars(Take(v.value.s, KeywordCount)))
    else None
  }

  /** `content.get('url', '')[-50:]`. */
  function UrlOf(fields: map<string, Json>): Option<Json> {
    var v := Field(fields, "url");
    if v.None? then Some(JStr(""))
    else if v.value.JStr? then Some(JStr(TakeLast(v.value.s, UrlTail)))
    else if v.value.JArr? then Some(JArr(TakeLast(v.value.items, UrlTail)))
    else None
  }

  /** `compress_page(content)`; `None` where it raises. Anything but a dictionary comes
      back as it is; a dictionary becomes one with the keys `t`, `c`, `k` and `u`, unless
      one of its four fields has a type the expression cannot handle. */
  function CompressPage(content: Json): (r: Option<Json>)
    ensures !content.JObj? ==> r == Some(content)
    ensures content.JObj? && r.Some? ==> r.value.JObj? && r.value.fields.Keys == {"t", "c", "k", "u"}
    ensures content.JObj? ==> (r.Some? <==>
      TitleOf(content.fields).Some? && ContentOf(content.fields).Some? &&
      KeywordsOf(content.fields).Some? && UrlOf(content.fields).Some?)
  {
    if !content.JObj? then Some(content)
    else
      var f := content.fields;
      var t, c, k, u := TitleOf(f), ContentOf(f), KeywordsOf(f), UrlOf(f);
      if t.None? || c.None? || k.None? || u.None? then None
      else Some(JObj(map["t" := JStr(t.value), "c" := c.value, "k" := JArr(k.value), "u" := u.value]))
  }

  /** A page whose four fields are strings (keywords a list) keeps its stripped title, the
      first 2000 characters of its content, its first five keywords and the last 50
      characters of its URL. */
  lemma CompressFields(fields: map<string, Json>, title: string, content: string, keywords: seq<Json>, url: string)
    requires Field(fields, "title") == Some(JStr(title)) && Field(fields, "content") == Some(JStr(content))
    requires Field(fields, "keywords") == Some(JArr(keywords)) && Field(fields, "url") == Some(JStr(url))
    ensures var r := CompressPage(JObj(fields));
      && r.Some? && r.value.JObj?
      && r.value.fields["t"] == JStr(Strip(title))
      && (exists c :: r.value.fields["c"] == JStr(c)
            && |c| == (if |content| < ContentLength then |content| else ContentLength) && c <= content)
      && (exists k :: r.value.fields["k"] == JArr(k)
            && |k| == (if |keywords| < KeywordCount then |keywords| else KeywordCount) && k <= keywords)
      && (exists u :: r.value.fields["u"] == JStr(u)
            && |u| == (if |url| < UrlTail then |url| else UrlTail) && u == url[|url| - |u|..])
  {
    var c := Take(content, ContentLength);
    var k := Take(keywords, KeywordCount);
    var u := TakeLast(url, UrlTail);
    assert TitleOf(fields) == Some(Strip(title));
    assert ContentOf(fields) == Some(JStr(c));
    assert KeywordsOf(fields) == Some(k);
    assert UrlOf(fields) == Some(JStr(u));
    CompressedIs(fields, Strip(title), JStr(c), k, JStr(u));
  }

  lemma CompressedIs(fields: map<string, Json>, t: string, c: Json, k: seq<Json>, u: Json)
    requires TitleOf(fields) == Some(t) && ContentOf(fields) == Some(c)
    requires KeywordsOf(fields) == Some(k) && UrlOf(fields) == Some(u)
    ensures var r := CompressPage(JObj(fields));
      r.Some? && r.value.JObj? && r.value.fields["t"] == JStr(t) && r.value.fields["c"] == c
      && r.value.fields["k"] == JArr(k) && r.value.fields["u"] == u
  {
    var m := map["t" := JStr(t), "c" := c, "k" := JArr(k), "u" := u];
    assert CompressPage(JObj(fields)) == Some(JObj(m));
  }

  /** A page without any of the four fields compresses to empty ones. */
  lemma CompressEmpty(fields: map<string, Json>)
    requires "title" !in fields && "content" !in fields && "keywords" !in fields && "url" !in fields
    ensures CompressPage(JObj(fields)) == Some(JObj(map["t" := JStr(""), "c" := JStr(""), "k" := JArr([]), "u" := JStr("")]))
  {
  }

  /** A title, content, keyword list or URL of the wrong type makes `compress_page` raise:
      a number, a boolean, `null` or a dictionary cannot be stripped or sliced. */
  lemma CompressRaises(fields: map<string, Json>, name: string)
    requires name == "title" || name == "content" || name == "keywords" || name == "url"
    requires name in fields && (fields[name].JNum? || fields[name].JBool? || fields[name].JNull? || fields[name].JObj?)
    ensures CompressPage(JObj(fields)).None?
  {
  }

  // ---------------------------------------------------------------------------
  // merge_pages
  // ---------------------------------------------------------------------------

  /** `compressed['t'] + compressed['c']`; `None` where it raises (not a dictionary, or a
      content that is a list). */
  function HashText(page: Json): (r: Option<string>)
    ensures r.Some? ==> page.JObj? && "t" in page.fields && "c" in page.fields
  {
    if page.JObj? && "t" in page.fields && "c" in page.fields
      && page.fields["t"].JStr? && page.fields["c"].JStr?
    then Some(page.fields["t"].s + page.fields["c"].s)
    else None
  }

  /** The compressed page a file contributes to the de-duplication, or nothing when it is
      not a `.json` file or its handling raises; `Collect(files, Candidate)` are the pages
      of the files handled without an exception, in listing order. */
  function Candidate(f: File): Option<Json> {
    if !EndsWith(f.name, ".json") || f.page.None? then None
    else
      var c := CompressPage(f.page.value);
      if c.Some? && HashText(c.value).Some? then c else None
  }

  /** The MD5 digest of a compressed page's title and content. */
  function PageKey(digest: string -> string): Json -> string {
    page => digest(HashText(page).GetOr(""))
  }

  /** The loop of `merge_pages(input_dir)` over the listed files, `digest` giving the hex
      MD5 digest: it returns `combined` and `seen_hashes`. The kept pages are the first of
      each digest among the handled files, in listing order; no two share a digest; and
      `seen_hashes` holds exactly their digests, which are those of all handled files. */
  method MergePages(files: seq<File>, digest: string -> string) returns (combined: seq<Json>, seen: set<string>)
    ensures combined == FirstOfEach(Collect(files, Candidate), PageKey(digest))
    ensures DistinctKeys(combined, PageKey(digest))
    ensures seen == KeysOf(combined, PageKey(digest)) == KeysOf(Collect(files, Candidate), PageKey(digest))
  {
    var key := PageKey(digest);
    combined := [];
    seen := {};
    for i := 0 to |files|
      invariant combined == FirstOfEach(Collect(files[..i], Candidate), key)
      invariant seen == KeysOf(Collect(files[..i], Candidate), key)
    {
      CollectNext(files, Candidate, i);
      var handled := HandleFile(files[i]);
      if handled.None? {
        assert Collect(files[..i], Candidate) + [] == Collect(files[..i], Candidate);
        continue;
      }
      var page := handled.value;
      var h := digest(HashText(page).value);
      PageKeyIs(digest, page);
      FirstOfEachSnoc(Collect(files[..i], Candidate), page, key);
      if h !in seen {
        seen := seen + {h};
        combined := combined + [page];
      }
    }
    assert files[..|files|] == files;
    FirstOfEachKeys(Collect(files, Candidate), key);
    FirstOfEachDistinct(Collect(files, Candidate), key);
  }

  /** The body of the loop of `merge_pages` up to the digest: the compressed page, or
      `None` when the file is passed over or the `try` block raises before the digest. */
  method HandleFile(f: File) returns (page: Option<Json>)
    ensures page == Candidate(f)
    ensures page.Some? ==> HashText(page.value).Some?
  {
    if !EndsWith(f.name, ".json") || f.page.None? {
      return None;
    }
    var compressed := CompressPage(f.page.value);
    if compressed.None? || HashText(compressed.value).None? {
      return None;
    }
    return compressed;
  }

  lemma PageKeyIs(digest: string -> string, page: Json)
    requires HashText(page).Some?
    ensures PageKey(digest)(page) == digest(HashText(page).value)
  {
    assert HashText(page).GetOr("") == HashText(page).value;
  }

  /** Names without the `.json` suffix, unreadable files and JSON that is not a
      dictionary are all skipped. */
  lemma NotHandled(f: File)
    requires !EndsWith(f.name, ".json") || f.page.None? || !f.page.value.JObj?
    ensures Candidate(f).None?
  {
  }
}
