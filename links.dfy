/**
 * `extract_page_links` of `websum.py`, after HTML parsing: the `href` of every
 * anchor is resolved against the page URL, kept when it stays on the page's host
 * or on a host whose name holds "docs", cut at its fragment and stripped of
 * trailing slashes; the distinct results come back in ascending order.
 *
 * Reference resolution (`urljoin`, section 5.2 of RFC 3986) and host extraction
 * (`urlparse(...).netloc`) are parameters.
 */
module Links {
  import opened Wrappers
  import opened Strings

  // ---------------------------------------------------------------------------
  // Python's ordering of strings
  // ---------------------------------------------------------------------------

  /** `a < b` on `str`: by code points, a proper prefix first. */
  predicate Below(a: string, b: string)
    decreases |a|
  {
    b != [] && (a == [] || a[0] < b[0] || (a[0] == b[0] && Below(a[1..], b[1..])))
  }

  lemma {:induction false} BelowIrreflexive(a: string)
    ensures !Below(a, a)
    decreases |a|
  {
    if a != [] {
      BelowIrreflexive(a[1..]);
    }
  }

  lemma {:induction false} BelowTransitive(a: string, b: string, c: string)
    requires Below(a, b) && Below(b, c)
    ensures Below(a, c)
    decreases |a|
  {
    if a != [] && a[0] == b[0] && b[0] == c[0] {
      BelowTransitive(a[1..], b[1..], c[1..]);
    }
  }

  lemma {:induction false} BelowTotal(a: string, b: string)
    ensures a == b || Below(a, b) || Below(b, a)
    decreases |a|
  {
    if a != [] && b != [] && a[0] == b[0] {
      BelowTotal(a[1..], b[1..]);
      if a[1..] == b[1..] {
        assert a == [a[0]] + a[1..] && b == [b[0]] + b[1..];
      }
    }
  }

  lemma PrefixTrans(a: string, b: string, c: string)
    requires a <= b && b <= c
    ensures a <= c
  {
    assert c[..|a|] == b[..|a|];
  }

  /** Strictly ascending, hence without repetitions: the shape of `sorted(set)`. */
  ghost predicate Ascending(s: seq<string>) {
    forall i, j :: 0 <= i < j < |s| ==> Below(s[i], s[j])
  }

  /** `sorted(links | {x})` from `sorted(links)`: `x` put in its place unless present. */
  function Insert(s: seq<string>, x: string): (r: seq<string>)
    ensures forall y :: y in r <==> y in s || y == x
    decreases |s|
  {
    if s == [] then [x]
    else if x == s[0] then s
    else if Below(x, s[0]) then [x] + s
    else [s[0]] + Insert(s[1..], x)
  }

  /** An element below every element of an ascending list can go in front. */
  lemma ConsAscending(x: string, s: seq<string>)
    requires Ascending(s) && forall y :: y in s ==> Below(x, y)
    ensures Ascending([x] + s)
  {
    var r := [x] + s;
    forall i, j | 0 <= i < j < |r| ensures Below(r[i], r[j]) {
      assert r[j] == s[j - 1];
      if i > 0 {
        assert r[i] == s[i - 1];
      }
    }
  }

  /** Inserting into an ascending list keeps it ascending. */
  lemma {:induction false} InsertAscending(s: seq<string>, x: string)
    requires Ascending(s)
    ensures Ascending(Insert(s, x))
    decreases |s|
  {
    if s != [] && x != s[0] {
      if Below(x, s[0]) {
        forall y | y in s ensures Below(x, y) {
          if y != s[0] {
            var j :| 0 <= j < |s| && s[j] == y;
            BelowTransitive(x, s[0], y);
          }
        }
        ConsAscending(x, s);
      } else {
        var tail := s[1..];
        assert Ascending(tail) by {
          forall i, j | 0 <= i < j < |tail| ensures Below(tail[i], tail[j]) {
            assert tail[i] == s[i + 1] && tail[j] == s[j + 1];
          }
        }
        InsertAscending(tail, x);
        BelowTotal(x, s[0]);
        forall y | y in Insert(tail, x) ensures Below(s[0], y) {
          if y != x {
            var j :| 0 <= j < |tail| && tail[j] == y;
            assert y == s[j + 1];
          }
        }
        ConsAscending(s[0], Insert(tail, x));
      }
    }
  }

  // ---------------------------------------------------------------------------
  // extract_page_links
  // ---------------------------------------------------------------------------

  /** An absolute `http://` or `https://` reference is kept, anything else is resolved
      against the page URL. */
  function Resolve(href: string, baseUrl: string, join: (string, string) -> string): (r: string)
    ensures StartsWith(href, "http://") || StartsWith(href, "https://") ==> r == href
  {
    if StartsWith(href, "http://") || StartsWith(href, "https://") then href else join(baseUrl, href)
  }

  /** `href.split('#')[0].rstrip('/')`: the URL before its fragment, without trailing
      slashes. */
  function Normalize(url: string): (r: string)
    ensures '#' !in r
    ensures r == [] || r[|r| - 1] != '/'
    ensures r <= url
    ensures var b := SplitOn(url, '#')[0];
      && b <= url && '#' !in b && (|b| < |url| ==> url[|b|] == '#')
      && r <= b && forall i :: |r| <= i < |b| ==> b[i] == '/'
  {
    var parts := SplitOn(url, '#');
    SplitOnHead(url, '#');
    PrefixTrans(RStripBy(parts[0], IsSlash), parts[0], url);
    RStripBy(parts[0], IsSlash)
  }

  /** The link one anchor contributes: its normalized URL when its host is the page's
      host or holds "docs". */
  function LinkOf(href: string, baseUrl: string, join: (string, string) -> string, netloc: string -> string): Option<string> {
    var url := Resolve(href, baseUrl, join);
    var host := netloc(url);
    if host == netloc(baseUrl) || Contains(host, "docs") then Some(Normalize(url)) else None
  }

  /** `extract_page_links(html_content, base_url)`, `hrefs` being the `href` of every
      `<a>` tag in document order: the links of the anchors, each once, ascending. */
  method ExtractPageLinks(hrefs: seq<string>, baseUrl: string, join: (string, string) -> string, netloc: string -> string)
    returns (r: seq<string>)
    ensures Ascending(r)
    ensures forall x :: x in r <==> exists j :: 0 <= j < |hrefs| && LinkOf(hrefs[j], baseUrl, join, netloc) == Some(x)
    ensures forall x :: x in r ==> '#' !in x && (x == [] || x[|x| - 1] != '/')
  {
    r := [];
    var i := 0;
    while i < |hrefs|
      invariant 0 <= i <= |hrefs|
      invariant Ascending(r)
      invariant forall x :: x in r <==> exists j :: 0 <= j < i && LinkOf(hrefs[j], baseUrl, join, netloc) == Some(x)
    {
      match LinkOf(hrefs[i], baseUrl, join, netloc) {
        case Some(x) =>
          InsertAscending(r, x);
          r := Insert(r, x);
        case None =>
      }
      i := i + 1;
    }
  }

  /** No link holds a fragment mark or ends with a slash, and each is a prefix of its
      resolved URL on an accepted host. */
  lemma LinkShape(href: string, baseUrl: string, join: (string, string) -> string, netloc: string -> string)
    requires LinkOf(href, baseUrl, join, netloc).Some?
    ensures var x := LinkOf(href, baseUrl, join, netloc).value;
      var url := Resolve(href, baseUrl, join);
      && '#' !in x && (x == [] || x[|x| - 1] != '/')
      && x <= url
      && (netloc(url) == netloc(baseUrl) || Contains(netloc(url), "docs"))
  {
  }

  /** A link on another host without "docs" in its name is dropped. */
  lemma ForeignDropped(href: string, baseUrl: string, join: (string, string) -> string, netloc: string -> string)
    requires var host := netloc(Resolve(href, baseUrl, join));
      host != netloc(baseUrl) && !Contains(host, "docs")
    ensures LinkOf(href, baseUrl, join, netloc).None?
  {
  }
}
