/**
 * The crawl loop of `websum.py`: `safe_crawl`'s retries with exponential back-off
 * and `crawl_docs`'s worklist, which walks a list of URLs while appending the
 * links found on each saved page.
 *
 * The browser, the rate limiter's clock and the files are outside the model:
 * each attempt of `safe_crawl` is an outcome given by a function of the attempt
 * number, and `crawl_docs` consumes one given `Fetch` per page it fetches and
 * reports what it does as a trace of `Event`s.
 */
module Crawl {
  import opened Wrappers
  import Cache
  import Utils
  import Strings

  /** A crawled page: whether it has HTML, and the links `extract_page_links` finds in it. */
  datatype Page = Page(html: string, links: seq<string>)

  // ---------------------------------------------------------------------------
  // safe_crawl
  // ---------------------------------------------------------------------------

  /** One attempt of `safe_crawl`: a successful result, an unsuccessful one, or an
      exception. */
  datatype Attempt = Succeeded(page: Page) | Unsuccessful | Raised

  /** `retries = 3`. */
  const Retries: nat := 3

  /** `2 ** k`. */
  function Pow2(k: nat): (r: nat)
    ensures r >= 1
  {
    if k == 0 then 1 else 2 * Pow2(k - 1)
  }

  /** The `asyncio.sleep(2 ** attempt)` calls of the first `n` attempts: one after each
      attempt that raised. */
  function Backoff(outcome: nat -> Attempt, n: nat): seq<nat> {
    if n == 0 then []
    else Backoff(outcome, n - 1) + (if outcome(n - 1).Raised? then [Pow2(n - 1)] else [])
  }

  /** `safe_crawl(url)`, `outcome(k)` being what attempt `k` gives: the first successful
      page within three attempts, or `None`; `tries` attempts are made and `sleeps` are
      the back-off delays slept. */
  method SafeCrawl(outcome: nat -> Attempt) returns (r: Option<Page>, tries: nat, sleeps: seq<nat>)
    ensures 1 <= tries <= Retries
    ensures forall k :: 0 <= k < tries - 1 ==> !outcome(k).Succeeded?
    ensures r.Some? ==> outcome(tries - 1) == Succeeded(r.value)
    ensures r.None? <==> forall k :: 0 <= k < Retries ==> !outcome(k).Succeeded?
    ensures r.None? ==> tries == Retries
    ensures sleeps == Backoff(outcome, if r.Some? then tries - 1 else tries)
  {
    sleeps := [];
    var attempt := 0;
    while attempt < Retries
      invariant 0 <= attempt <= Retries
      invariant forall k :: 0 <= k < attempt ==> !outcome(k).Succeeded?
      invariant sleeps == Backoff(outcome, attempt)
    {
      match outcome(attempt) {
        case Succeeded(page) =>
          return Some(page), attempt + 1, sleeps;
        case Unsuccessful =>
        case Raised =>
          sleeps := sleeps + [Pow2(attempt)];
      }
      attempt := attempt + 1;
    }
    return None, Retries, sleeps;
  }

  /** The total of some delays. */
  function Total(s: seq<nat>): nat {
    if s == [] then 0 else Total(s[..|s| - 1]) + s[|s| - 1]
  }

  /** The back-off of `n` attempts sleeps less than `2 ** n` in all, each delay doubling
      the one before at least, and at most one delay per attempt. */
  lemma {:induction false} BackoffBounds(outcome: nat -> Attempt, n: nat)
    ensures |Backoff(outcome, n)| <= n
    ensures Total(Backoff(outcome, n)) < Pow2(n)
    ensures forall j :: 0 <= j < |Backoff(outcome, n)| ==> Backoff(outcome, n)[j] < Pow2(n)
  {
    if n > 0 {
      var b := Backoff(outcome, n - 1);
      BackoffBounds(outcome, n - 1);
      if outcome(n - 1).Raised? {
        assert Backoff(outcome, n) == b + [Pow2(n - 1)];
        assert (b + [Pow2(n - 1)])[..|b|] == b;
      } else {
        assert Backoff(outcome, n) == b;
      }
    }
  }

  /** Without an exception `safe_crawl` never sleeps. */
  lemma {:induction false} BackoffWithoutRaise(outcome: nat -> Attempt, n: nat)
    requires forall k :: 0 <= k < n ==> !outcome(k).Raised?
    ensures Backoff(outcome, n) == []
  {
    if n > 0 {
      BackoffWithoutRaise(outcome, n - 1);
    }
  }

  // ---------------------------------------------------------------------------
  // crawl_docs
  // ---------------------------------------------------------------------------

  /** What one fetch of `crawl_docs` meets: the result of `safe_crawl` (`None` unless it
      succeeded) and whether `save_to_knowledge_base` then raises. */
  datatype Fetch = Fetch(result: Option<Page>, saveRaises: bool)

  /** What `crawl_docs` does, in order: `rate_limiter.wait()`, `safe_crawl(url)`, and the
      addition of `url` to `crawled_urls`. */
  datatype Event = Wait | Crawl(url: string) | Added(url: string)

  /** Every crawl comes right after a wait, and every wait right before a crawl: one wait
      per fetch. A URL is added right after its own crawl. */
  ghost predicate Paced(events: seq<Event>) {
    && (forall k :: 0 <= k < |events| && events[k].Crawl? ==> 0 < k && events[k - 1] == Wait)
    && (forall k :: 0 <= k < |events| && events[k].Wait? ==> k + 1 < |events| && events[k + 1].Crawl?)
    && (forall k :: 0 <= k < |events| && events[k].Added? ==> 0 < k && events[k - 1] == Crawl(events[k].url))
  }

  /** The events of one fetch of `url`. */
  function Round(url: string, added: bool): (r: seq<Event>)
    ensures |r| == if added then 3 else 2
    ensures Crawl(url) in r && Wait in r
    ensures forall u :: Added(u) in r <==> added && u == url
  {
    if added then [Wait, Crawl(url), Added(url)] else [Wait, Crawl(url)]
  }

  /** A round keeps the trace paced. */
  lemma PacedRound(events: seq<Event>, url: string, added: bool)
    requires Paced(events)
    ensures Paced(events + Round(url, added))
  {
    var r := events + Round(url, added);
    var n := |events|;
    assert r[n] == Wait && r[n + 1] == Crawl(url);
    assert added ==> r[n + 2] == Added(url);
    assert forall k :: 0 <= k < n ==> r[k] == events[k];
  }

  /** `[link for link in new_links if link not in crawled_urls]`. */
  function NotCrawled(links: seq<string>, crawled: set<string>): (r: seq<string>)
    ensures |r| <= |links|
    ensures forall j :: 0 <= j < |r| ==> r[j] in links && r[j] !in crawled
    ensures forall link :: link in links && link !in crawled ==> link in r
  {
    if links == [] then []
    else (if links[0] in crawled then [] else [links[0]]) + NotCrawled(links[1..], crawled)
  }

  /** The links kept from two lists are those kept from each, in order: the new links
      keep the order in which they were extracted. */
  lemma {:induction false} NotCrawledAppend(a: seq<string>, b: seq<string>, crawled: set<string>)
    ensures NotCrawled(a + b, crawled) == NotCrawled(a, crawled) + NotCrawled(b, crawled)
    decreases |a|
  {
    if a != [] {
      assert (a + b)[0] == a[0] && (a + b)[1..] == a[1..] + b;
      NotCrawledAppend(a[1..], b, crawled);
    } else {
      assert a + b == b;
    }
  }

  /** A single link is kept exactly when it is not crawled; with `NotCrawledAppend` this
      makes `NotCrawled` the in-order filter of the links. */
  lemma NotCrawledOne(link: string, crawled: set<string>)
    ensures NotCrawled([link], crawled) == if link in crawled then [] else [link]
  {
    assert [link][1..] == [];
  }

  /** Every fetched URL is a listed URL given a scheme. */
  ghost predicate FromQueue(scheme: string -> string, fetched: seq<string>, queue: seq<string>) {
    forall k :: 0 <= k < |fetched| ==> exists j :: 0 <= j < |queue| && fetched[k] == scheme(queue[j])
  }

  /** Extending the list, and fetching its URL `i`, keep the fetched URLs listed. */
  lemma FromQueueGrows(scheme: string -> string, fetched: seq<string>, queue: seq<string>, i: nat, more: seq<string>)
    requires FromQueue(scheme, fetched, queue) && i < |queue|
    ensures FromQueue(scheme, fetched + [scheme(queue[i])], queue + more)
  {
    var q := queue + more;
    var f := fetched + [scheme(queue[i])];
    assert forall j :: 0 <= j < |queue| ==> q[j] == queue[j];
    forall k | 0 <= k < |f|
      ensures exists j :: 0 <= j < |q| && f[k] == scheme(q[j])
    {
      if k < |fetched| {
        var j :| 0 <= j < |queue| && fetched[k] == scheme(queue[j]);
        assert f[k] == scheme(q[j]);
      } else {
        assert f[k] == scheme(q[i]);
      }
    }
  }

  lemma AddNew(crawled: set<string>, url: string)
    requires url !in crawled
    ensures |crawled + {url}| == |crawled| + 1
  {
  }

  /** `max(0, limit)`. */
  function AtLeastZero(limit: int): nat {
    if limit < 0 then 0 else limit
  }

  /** The fetch ends with the page saved: `safe_crawl` succeeded and, unless the format is
      condensed, `save_to_knowledge_base` did not raise. */
  predicate Saved(f: Fetch, condensed: bool) {
    f.result.Some? && (condensed || !f.saveRaises)
  }

  /** The links a saved page puts on the list, `crawled` already holding its own URL: none
      when the page has no HTML. */
  function Queued(f: Fetch, crawled: set<string>): seq<string>
    requires f.result.Some?
  {
    if f.result.value.html != "" then NotCrawled(f.result.value.links, crawled) else []
  }

  /** The state of the walk of `crawl_docs`: the list of URLs as extended, the crawled
      set, and the URLs fetched in order. */
  datatype Run = Run(queue: seq<string>, crawled: set<string>, fetched: seq<string>)

  /** The walk of `crawl_docs` stops at list position `i`: at the end of the list, once
      the limit is reached, or when a URL not crawled finds no fetch left. */
  predicate Stops(scheme: string -> string, pageLimit: Option<int>, fetches: seq<Fetch>, run: Run, i: nat)
    requires i <= |run.queue|
  {
    || i == |run.queue|
    || (pageLimit.Some? && |run.crawled| >= pageLimit.value)
    || (scheme(run.queue[i]) !in run.crawled && |run.fetched| == |fetches|)
  }

  /** The state after list position `i`: a URL already crawled is passed over; otherwise
      the URL takes the next fetch, and a saved page adds its URL and appends its links. */
  function Next(scheme: string -> string, condensed: bool, fetches: seq<Fetch>, run: Run, i: nat): (r: Run)
    requires i < |run.queue| && |run.fetched| <= |fetches|
    requires scheme(run.queue[i]) in run.crawled || |run.fetched| < |fetches|
    ensures run.queue <= r.queue && run.fetched <= r.fetched && run.crawled <= r.crawled
    ensures r == run || |r.fetched| == |run.fetched| + 1
  {
    var url := scheme(run.queue[i]);
    if url in run.crawled then run
    else
      var f := fetches[|run.fetched|];
      if Saved(f, condensed) then
        var crawled := run.crawled + {url};
        Run(run.queue + Queued(f, crawled), crawled, run.fetched + [url])
      else Run(run.queue, run.crawled, run.fetched + [url])
  }

  /** The walk of `crawl_docs` from list position `i`, one position at a time until it
      stops. The walk only extends the state. */
  function Walk(scheme: string -> string, pageLimit: Option<int>, condensed: bool, fetches: seq<Fetch>, run: Run, i: nat): (r: Run)
    requires i <= |run.queue| && |run.fetched| <= |fetches|
    ensures run.queue <= r.queue && run.fetched <= r.fetched && run.crawled <= r.crawled
    ensures |r.fetched| <= |fetches|
    decreases |fetches| - |run.fetched|, |run.queue| - i
  {
    if Stops(scheme, pageLimit, fetches, run, i) then run
    else Walk(scheme, pageLimit, condensed, fetches, Next(scheme, condensed, fetches, run, i), i + 1)
  }

  /** Where the walk does not stop, it goes on from the state after list position `i`. */
  lemma WalkNext(scheme: string -> string, pageLimit: Option<int>, condensed: bool, fetches: seq<Fetch>, run: Run, i: nat)
    requires i < |run.queue| && |run.fetched| <= |fetches|
    requires !Stops(scheme, pageLimit, fetches, run, i)
    ensures Walk(scheme, pageLimit, condensed, fetches, run, i)
      == Walk(scheme, pageLimit, condensed, fetches, Next(scheme, condensed, fetches, run, i), i + 1)
  {
  }

  /** The walk stops at the end of the list, at the limit, and when a URL to fetch finds
      no fetch left. */
  lemma WalkStops(scheme: string -> string, pageLimit: Option<int>, condensed: bool, fetches: seq<Fetch>, run: Run, i: nat)
    requires i <= |run.queue| && |run.fetched| <= |fetches|
    requires Stops(scheme, pageLimit, fetches, run, i)
    ensures Walk(scheme, pageLimit, condensed, fetches, run, i) == run
  {
  }

  /** A single seed whose fetch is not saved: it is fetched once and nothing is added. */
  lemma UnsavedSeed(url: string, condensed: bool, fetches: seq<Fetch>)
    requires fetches != [] && !Saved(fetches[0], condensed)
    ensures Walk(Utils.EnsureUrlScheme, None, condensed, fetches, Run([url], {}, []), 0) == Run([url], {}, [Utils.EnsureUrlScheme(url)])
  {
    var run := Run([url], {}, [Utils.EnsureUrlScheme(url)]);
    assert Walk(Utils.EnsureUrlScheme, None, condensed, fetches, run, 1) == run;
  }

  /** The URLs added to `crawled_urls` by the fetches `fs` of the URLs `fetched`. */
  function SavedUrls(fetched: seq<string>, fs: seq<Fetch>, condensed: bool): set<string>
    requires |fetched| == |fs|
    decreases |fs|
  {
    if fs == [] then {}
    else
      var n := |fs| - 1;
      SavedUrls(fetched[..n], fs[..n], condensed) + (if Saved(fs[n], condensed) then {fetched[n]} else {})
  }

  /** The trace of the fetches `fs` of the URLs `fetched`: one round per fetch, in order. */
  function Rounds(fetched: seq<string>, fs: seq<Fetch>, condensed: bool): seq<Event>
    requires |fetched| == |fs|
    decreases |fs|
  {
    if fs == [] then []
    else
      var n := |fs| - 1;
      Rounds(fetched[..n], fs[..n], condensed) + Round(fetched[n], Saved(fs[n], condensed))
  }

  /** What the fetches `fs` of the URLs `fetched` append to the list: for each saved page,
      its links not crawled by then. */
  function Appended(fetched: seq<string>, fs: seq<Fetch>, condensed: bool): seq<string>
    requires |fetched| == |fs|
    decreases |fs|
  {
    if fs == [] then []
    else
      var n := |fs| - 1;
      Appended(fetched[..n], fs[..n], condensed)
        + (if Saved(fs[n], condensed) then Queued(fs[n], SavedUrls(fetched, fs, condensed)) else [])
  }

  /** One more fetch, of `url`, at the end of the trace. */
  /** One more fetch adds its round to the trace. */
  lemma RoundsSnoc(fetched: seq<string>, fs: seq<Fetch>, url: string, condensed: bool)
    requires |fetched| < |fs|
    ensures Rounds(fetched + [url], fs[..|fetched| + 1], condensed)
      == Rounds(fetched, fs[..|fetched|], condensed) + Round(url, Saved(fs[|fetched|], condensed))
  {
    var n := |fetched|;
    assert (fetched + [url])[..n] == fetched;
    assert fs[..n + 1][..n] == fs[..n];
  }

  lemma TraceSnoc(fetched: seq<string>, fs: seq<Fetch>, url: string, condensed: bool)
    requires |fetched| < |fs|
    ensures var n := |fetched|;
      SavedUrls(fetched + [url], fs[..n + 1], condensed)
        == SavedUrls(fetched, fs[..n], condensed) + (if Saved(fs[n], condensed) then {url} else {})
    ensures var n := |fetched|;
      Rounds(fetched + [url], fs[..n + 1], condensed)
        == Rounds(fetched, fs[..n], condensed) + Round(url, Saved(fs[n], condensed))
    ensures var n := |fetched|;
      Appended(fetched + [url], fs[..n + 1], condensed)
        == Appended(fetched, fs[..n], condensed)
           + (if Saved(fs[n], condensed) then Queued(fs[n], SavedUrls(fetched, fs[..n], condensed) + {url}) else [])
  {
    var n := |fetched|;
    var f := fetched + [url];
    var g := fs[..n + 1];
    assert f[..n] == fetched && f[n] == url;
    assert g[..n] == fs[..n] && g[n] == fs[n];
  }

  /** A URL is added exactly when one of its fetches saved the page. */
  lemma {:induction false} SavedUrlsIff(fetched: seq<string>, fs: seq<Fetch>, condensed: bool, u: string)
    requires |fetched| == |fs|
    ensures u in SavedUrls(fetched, fs, condensed) <==>
      exists k :: 0 <= k < |fs| && fetched[k] == u && Saved(fs[k], condensed)
    decreases |fs|
  {
    if fs != [] {
      var n := |fs| - 1;
      SavedUrlsIff(fetched[..n], fs[..n], condensed, u);
      if u in SavedUrls(fetched[..n], fs[..n], condensed) {
        var k :| 0 <= k < n && fetched[..n][k] == u && Saved(fs[..n][k], condensed);
        assert fetched[k] == u && fs[k] == fs[..n][k];
      }
      if exists k :: 0 <= k < |fs| && fetched[k] == u && Saved(fs[k], condensed) {
        var k :| 0 <= k < |fs| && fetched[k] == u && Saved(fs[k], condensed);
        if k < n {
          assert fetched[..n][k] == u && fs[..n][k] == fs[k];
        }
      }
    }
  }

  /** The trace of a run is paced. */
  lemma {:induction false} RoundsPaced(fetched: seq<string>, fs: seq<Fetch>, condensed: bool)
    requires |fetched| == |fs|
    ensures Paced(Rounds(fetched, fs, condensed))
    decreases |fs|
  {
    if fs != [] {
      var n := |fs| - 1;
      RoundsPaced(fetched[..n], fs[..n], condensed);
      PacedRound(Rounds(fetched[..n], fs[..n], condensed), fetched[n], Saved(fs[n], condensed));
    }
  }

  /** The trace crawls exactly the fetched URLs. */
  lemma {:induction false} RoundsCrawl(fetched: seq<string>, fs: seq<Fetch>, condensed: bool, u: string)
    requires |fetched| == |fs|
    ensures Crawl(u) in Rounds(fetched, fs, condensed) <==> u in fetched
    decreases |fs|
  {
    if fs != [] {
      var n := |fs| - 1;
      RoundsCrawl(fetched[..n], fs[..n], condensed, u);
      var r := Round(fetched[n], Saved(fs[n], condensed));
      assert Crawl(u) in Rounds(fetched[..n], fs[..n], condensed) + r
        <==> Crawl(u) in Rounds(fetched[..n], fs[..n], condensed) || Crawl(u) in r;
      assert Crawl(u) in r <==> u == fetched[n];
      assert fetched == fetched[..n] + [fetched[n]];
    }
  }

  /** The trace adds exactly the URLs whose pages were saved. */
  lemma {:induction false} RoundsAdded(fetched: seq<string>, fs: seq<Fetch>, condensed: bool, u: string)
    requires |fetched| == |fs|
    ensures Added(u) in Rounds(fetched, fs, condensed) <==> u in SavedUrls(fetched, fs, condensed)
    decreases |fs|
  {
    if fs != [] {
      var n := |fs| - 1;
      RoundsAdded(fetched[..n], fs[..n], condensed, u);
      var r := Round(fetched[n], Saved(fs[n], condensed));
      assert Added(u) in Rounds(fetched[..n], fs[..n], condensed) + r
        <==> Added(u) in Rounds(fetched[..n], fs[..n], condensed) || Added(u) in r;
    }
  }

  /** A URL fetched again was not saved by its earlier fetches. */
  ghost predicate Refetched(fetched: seq<string>, fs: seq<Fetch>, condensed: bool)
    requires |fetched| <= |fs|
  {
    forall m, k :: 0 <= m < k < |fetched| && fetched[m] == fetched[k] ==> !Saved(fs[m], condensed)
  }

  /** A fetch of a URL not crawled keeps `Refetched`. */
  lemma FetchKeepsRefetched(fetched: seq<string>, fs: seq<Fetch>, url: string, condensed: bool)
    requires |fetched| < |fs| && Refetched(fetched, fs, condensed)
    requires url !in SavedUrls(fetched, fs[..|fetched|], condensed)
    ensures Refetched(fetched + [url], fs, condensed)
  {
    var f := fetched + [url];
    var n := |fetched|;
    forall m, k | 0 <= m < k < |f| && f[m] == f[k]
      ensures !Saved(fs[m], condensed)
    {
      if k < n {
        assert f[m] == fetched[m] && f[k] == fetched[k];
      } else {
        assert f[m] == fetched[m] == url;
        SavedUrlsIff(fetched, fs[..n], condensed, url);
        assert fs[..n][m] == fs[m];
      }
    }
  }

  /** A run takes the first fetches, one per fetched URL, and the state is what they
      leave: a URL is fetched again only when no earlier fetch saved it. */
  ghost predicate Traced(urls: seq<string>, condensed: bool, fetches: seq<Fetch>,
                         queue: seq<string>, crawled: set<string>, fetched: seq<string>)
  {
    && |fetched| <= |fetches|
    && crawled == SavedUrls(fetched, fetches[..|fetched|], condensed)
    && queue == urls + Appended(fetched, fetches[..|fetched|], condensed)
    && Refetched(fetched, fetches, condensed)
  }

  /** A run that has met the first `i` listed URLs has fetched each of them, and only
      listed URLs, and stays within the limit. */
  ghost predicate Met(scheme: string -> string, pageLimit: Option<int>, i: int, queue: seq<string>, crawled: set<string>, fetched: seq<string>)
  {
    && 0 <= i <= |queue|
    && (forall j :: 0 <= j < i ==> scheme(queue[j]) in fetched)
    && (forall u :: u in crawled ==> u in fetched)
    && FromQueue(scheme, fetched, queue)
    && (pageLimit.Some? ==> |crawled| <= AtLeastZero(pageLimit.value))
    && (pageLimit.Some? && pageLimit.value <= 0 ==> fetched == [])
  }

  /** The next fetch extends the trace. */
  lemma FetchKeepsTraced(urls: seq<string>, condensed: bool, fetches: seq<Fetch>,
                         queue: seq<string>, crawled: set<string>, fetched: seq<string>,
                         url: string, queue': seq<string>, crawled': set<string>)
    requires Traced(urls, condensed, fetches, queue, crawled, fetched)
    requires url !in crawled && |fetched| < |fetches|
    requires var f := fetches[|fetched|];
      && crawled' == (if Saved(f, condensed) then crawled + {url} else crawled)
      && queue' == queue + (if Saved(f, condensed) then Queued(f, crawled + {url}) else [])
    ensures Traced(urls, condensed, fetches, queue', crawled', fetched + [url])
  {
    var n := |fetched|;
    var f := fetches[n];
    TraceSnoc(fetched, fetches, url, condensed);
    FetchKeepsRefetched(fetched, fetches, url, condensed);
    Strings.AppendAssoc(urls, Appended(fetched, fetches[..n], condensed),
                        if Saved(f, condensed) then Queued(f, crawled + {url}) else []);
    assert |fetched + [url]| == n + 1;
  }

  /** A listed URL already crawled is passed over. */
  lemma SkipKeepsMet(scheme: string -> string, pageLimit: Option<int>, i: int, queue: seq<string>, crawled: set<string>, fetched: seq<string>)
    requires Met(scheme, pageLimit, i, queue, crawled, fetched) && i < |queue|
    requires scheme(queue[i]) in crawled
    ensures Met(scheme, pageLimit, i + 1, queue, crawled, fetched)
  {
  }

  /** Fetching listed URL `i`, as `h` makes it, keeps every URL met fetched, one URL
      further on. */
  lemma FetchKeepsListed(i: int, queue: seq<string>, fetched: seq<string>, more: seq<string>, h: string -> string)
    requires 0 <= i < |queue|
    requires forall j :: 0 <= j < i ==> h(queue[j]) in fetched
    ensures forall j :: 0 <= j < i + 1 ==> h((queue + more)[j]) in fetched + [h(queue[i])]
  {
    var q, f := queue + more, fetched + [h(queue[i])];
    forall j | 0 <= j < i + 1
      ensures h(q[j]) in f
    {
      assert q[j] == queue[j];
      if j < i {
        var k :| 0 <= k < |fetched| && fetched[k] == h(queue[j]);
        assert f[k] == fetched[k];
      } else {
        assert f[|fetched|] == h(queue[i]);
      }
    }
  }

  /** Fetching `url`, and perhaps adding it, keeps every crawled URL fetched. */
  lemma FetchKeepsCrawled(crawled: set<string>, fetched: seq<string>, url: string, crawled': set<string>)
    requires forall u :: u in crawled ==> u in fetched
    requires crawled' == crawled || crawled' == crawled + {url}
    ensures forall u :: u in crawled' ==> u in fetched + [url]
  {
    var f := fetched + [url];
    forall u | u in crawled'
      ensures u in f
    {
      if u in crawled {
        var k :| 0 <= k < |fetched| && fetched[k] == u;
        assert f[k] == u;
      } else {
        assert f[|fetched|] == u;
      }
    }
  }

  /** The next fetch, of listed URL `i`, not crawled and below the limit, keeps `Met` one
      URL further on. */
  lemma FetchKeepsMet(scheme: string -> string, pageLimit: Option<int>, i: int, queue: seq<string>, crawled: set<string>, fetched: seq<string>,
                      more: seq<string>, crawled': set<string>)
    requires Met(scheme, pageLimit, i, queue, crawled, fetched) && i < |queue|
    requires scheme(queue[i]) !in crawled
    requires pageLimit.Some? ==> |crawled| < pageLimit.value
    requires crawled' == crawled || crawled' == crawled + {scheme(queue[i])}
    ensures Met(scheme, pageLimit, i + 1, queue + more, crawled', fetched + [scheme(queue[i])])
  {
    var url := scheme(queue[i]);
    FetchKeepsListed(i, queue, fetched, more, scheme);
    FetchKeepsCrawled(crawled, fetched, url, crawled');
    FromQueueGrows(scheme, fetched, queue, i, more);
    if crawled' != crawled {
      AddNew(crawled, url);
    }
  }

  /** What holds at list position `i` of the walk of `crawl_docs` in state `run`: the
      state is what the fetches made leave, every URL met was fetched, and the walk from
      here ends where the whole walk does. */
  ghost predicate Inv(scheme: string -> string, urls: seq<string>, pageLimit: Option<int>, condensed: bool, fetches: seq<Fetch>,
                      run: Run, i: nat, walk: Run)
  {
    && Traced(urls, condensed, fetches, run.queue, run.crawled, run.fetched)
    && Met(scheme, pageLimit, i, run.queue, run.crawled, run.fetched)
    && Walk(scheme, pageLimit, condensed, fetches, run, i) == walk
  }

  /** `Inv` holds before the first URL. */
  lemma InvInit(scheme: string -> string, urls: seq<string>, pageLimit: Option<int>, condensed: bool, fetches: seq<Fetch>)
    ensures Inv(scheme, urls, pageLimit, condensed, fetches, Run(urls, {}, []), 0,
                Walk(scheme, pageLimit, condensed, fetches, Run(urls, {}, []), 0))
  {
    assert urls == urls + [];
  }

  /** Each position where the walk does not stop keeps `Inv`, one position further on. */
  lemma InvNext(scheme: string -> string, urls: seq<string>, pageLimit: Option<int>, condensed: bool, fetches: seq<Fetch>,
                run: Run, i: nat, walk: Run)
    requires Inv(scheme, urls, pageLimit, condensed, fetches, run, i, walk)
    requires i < |run.queue| && !Stops(scheme, pageLimit, fetches, run, i)
    ensures Inv(scheme, urls, pageLimit, condensed, fetches, Next(scheme, condensed, fetches, run, i), i + 1, walk)
  {
    WalkNext(scheme, pageLimit, condensed, fetches, run, i);
    var url := scheme(run.queue[i]);
    if url in run.crawled {
      SkipKeepsMet(scheme, pageLimit, i, run.queue, run.crawled, run.fetched);
    } else {
      var f := fetches[|run.fetched|];
      var added := Saved(f, condensed);
      var more := if added then Queued(f, run.crawled + {url}) else [];
      var crawled' := if added then run.crawled + {url} else run.crawled;
      assert run.queue + [] == run.queue;
      assert Next(scheme, condensed, fetches, run, i) == Run(run.queue + more, crawled', run.fetched + [url]);
      FetchKeepsTraced(urls, condensed, fetches, run.queue, run.crawled, run.fetched, url, run.queue + more, crawled');
      FetchKeepsMet(scheme, pageLimit, i, run.queue, run.crawled, run.fetched, more, crawled');
    }
  }

  /** What a run of `crawl_docs` ending in state `r` promises, `urls` being the list it
      was given and its trace being one round per fetch: the crawled set, the trace and
      the extended list are those of the fetches made; a URL is fetched again only when
      no earlier fetch saved it; the run stopped only when every listed URL was met, the
      limit was reached or the fetches ran out; every fetched URL is a listed URL given a
      scheme by `scheme`; the crawled URLs are the ones added in the trace; every fetch follows one
      wait; and the limit bounds the crawled set. */
  ghost predicate Outcome(scheme: string -> string, urls: seq<string>, pageLimit: Option<int>, condensed: bool, fetches: seq<Fetch>, r: Run) {
    && |r.fetched| <= |fetches|
    && var fs := fetches[..|r.fetched|];
    var events := Rounds(r.fetched, fs, condensed);
    && r.crawled == SavedUrls(r.fetched, fs, condensed)
    && r.queue == urls + Appended(r.fetched, fs, condensed)
    && (forall m, k :: 0 <= m < k < |r.fetched| && r.fetched[m] == r.fetched[k] ==> !Saved(fetches[m], condensed))
    && ((forall j :: 0 <= j < |r.queue| ==> scheme(r.queue[j]) in r.fetched)
        || (pageLimit.Some? && |r.crawled| >= pageLimit.value) || |r.fetched| == |fetches|)
    && FromQueue(scheme, r.fetched, r.queue)
    && (forall u :: u in r.crawled ==> u in r.fetched)
    && (forall u :: u in r.crawled <==> Added(u) in events)
    && Paced(events)
    && (pageLimit.Some? ==> |r.crawled| <= AtLeastZero(pageLimit.value))
    && (pageLimit.Some? && pageLimit.value <= 0 ==> events == [])
  }

  /** Where the walk stops, the state is its end and has the outcome `crawl_docs`
      promises. */
  lemma InvFinal(scheme: string -> string, urls: seq<string>, pageLimit: Option<int>, condensed: bool, fetches: seq<Fetch>,
                 run: Run, i: nat, walk: Run)
    requires Inv(scheme, urls, pageLimit, condensed, fetches, run, i, walk)
    requires Stops(scheme, pageLimit, fetches, run, i)
    ensures run == walk
    ensures Outcome(scheme, urls, pageLimit, condensed, fetches, walk)
  {
    WalkStops(scheme, pageLimit, condensed, fetches, run, i);
    var fs := fetches[..|run.fetched|];
    RoundsPaced(run.fetched, fs, condensed);
    forall u | true
      ensures u in run.crawled <==> Added(u) in Rounds(run.fetched, fs, condensed)
    {
      RoundsAdded(run.fetched, fs, condensed, u);
    }
  }

  /** From any position where `Inv` holds, the walk ends in the promised outcome. */
  lemma {:induction false} WalkOutcome(scheme: string -> string, urls: seq<string>, pageLimit: Option<int>, condensed: bool, fetches: seq<Fetch>,
                                       run: Run, i: nat, walk: Run)
    requires Inv(scheme, urls, pageLimit, condensed, fetches, run, i, walk)
    ensures Outcome(scheme, urls, pageLimit, condensed, fetches, walk)
    decreases |fetches| - |run.fetched|, |run.queue| - i
  {
    if Stops(scheme, pageLimit, fetches, run, i) {
      InvFinal(scheme, urls, pageLimit, condensed, fetches, run, i, walk);
    } else {
      InvNext(scheme, urls, pageLimit, condensed, fetches, run, i, walk);
      WalkOutcome(scheme, urls, pageLimit, condensed, fetches, Next(scheme, condensed, fetches, run, i), i + 1, walk);
    }
  }

  /** The walk over the given list ends in the promised outcome. */
  lemma CrawlOutcome(scheme: string -> string, urls: seq<string>, pageLimit: Option<int>, condensed: bool, fetches: seq<Fetch>)
    ensures Outcome(scheme, urls, pageLimit, condensed, fetches, Walk(scheme, pageLimit, condensed, fetches, Run(urls, {}, []), 0))
  {
    InvInit(scheme, urls, pageLimit, condensed, fetches);
    WalkOutcome(scheme, urls, pageLimit, condensed, fetches, Run(urls, {}, []), 0,
                Walk(scheme, pageLimit, condensed, fetches, Run(urls, {}, []), 0));
  }

  /** One pass of the loop of `crawl_docs` at list position `i`, with `complete` the
      completion it applies to the listed URL: it stops the loop once the limit is
      reached or when the URL, not crawled, finds no fetch left; otherwise it passes over
      a crawled URL, or fetches the URL, records the round, and on a saved page adds the
      URL, appends its links not crawled and counts the page. */
  method Visit(complete: string -> string, pageLimit: Option<int>, condensed: bool, fetches: seq<Fetch>,
               progress: Cache.CrawlProgress, queue: seq<string>, crawled: set<string>, fetched: seq<string>,
               events: seq<Event>, i: nat)
    returns (stop: bool, queue': seq<string>, crawled': set<string>, fetched': seq<string>, events': seq<Event>)
    requires i < |queue| && |fetched| <= |fetches|
    requires progress.pageLimit == pageLimit && progress.pagesProcessed == |crawled|
    requires events == Rounds(fetched, fetches[..|fetched|], condensed)
    modifies progress
    ensures stop <==> Stops(complete, pageLimit, fetches, Run(queue, crawled, fetched), i)
    ensures stop ==> Run(queue', crawled', fetched') == Run(queue, crawled, fetched)
    ensures !stop ==> Run(queue', crawled', fetched') == Next(complete, condensed, fetches, Run(queue, crawled, fetched), i)
    ensures |fetched'| <= |fetches|
    ensures events' == Rounds(fetched', fetches[..|fetched'|], condensed)
    ensures progress.pageLimit == pageLimit && progress.pagesProcessed == |crawled'|
  {
    queue', crawled', fetched', events' := queue, crawled, fetched, events;
    if !progress.ShouldProcessMore() {
      return true, queue', crawled', fetched', events';
    }
    var url := complete(queue[i]);
    if url in crawled {
      return false, queue', crawled', fetched', events';
    }
    if |fetched| == |fetches| {
      return true, queue', crawled', fetched', events';
    }
    var fetch := fetches[|fetched|];
    var added := fetch.result.Some? && (condensed || !fetch.saveRaises);
    RoundsSnoc(fetched, fetches, url, condensed);
    events' := events + Round(url, added);
    if added {
      AddNew(crawled, url);
      queue' := queue + Queued(fetch, crawled + {url});
      crawled' := crawled + {url};
      progress.Update();
    }
    fetched' := fetched + [url];
    stop := false;
  }

  /** The loop of `crawl_docs` over the list `urls`, with `complete` the completion it
      applies to each listed URL, `condensed` for `SummaryFormat.CONDENSED`, and
      `fetches[k]` what the `k`-th fetch meets; the run stops early when the fetches run
      out. It returns `len(crawled_urls)`, the counter of its `CrawlProgress`, the list of
      URLs as extended, the set of crawled URLs, the URLs fetched in order, and the trace.
      The outcome is the walk `Walk` over the list, position by position, and its trace
      has one round per fetch. */
  method CrawlList(complete: string -> string, urls: seq<string>, pageLimit: Option<int>, condensed: bool, fetches: seq<Fetch>)
    returns (count: nat, processed: int, queue: seq<string>, crawled: set<string>, fetched: seq<string>, events: seq<Event>)
    ensures Run(queue, crawled, fetched) == Walk(complete, pageLimit, condensed, fetches, Run(urls, {}, []), 0)
    ensures events == Rounds(fetched, fetches[..|fetched|], condensed)
    ensures count == |crawled| && processed == count
  {
    var progress := new Cache.CrawlProgress(pageLimit);
    queue := urls;
    crawled := {};
    fetched := [];
    events := [];
    var i := 0;
    ghost var walk := Walk(complete, pageLimit, condensed, fetches, Run(urls, {}, []), 0);
    while i < |queue|
      invariant i <= |queue| && |fetched| <= |fetches|
      invariant Walk(complete, pageLimit, condensed, fetches, Run(queue, crawled, fetched), i) == walk
      invariant events == Rounds(fetched, fetches[..|fetched|], condensed)
      invariant progress.pageLimit == pageLimit && progress.pagesProcessed == |crawled|
      decreases |fetches| - |fetched|, |queue| - i
    {
      ghost var run := Run(queue, crawled, fetched);
      var stop;
      stop, queue, crawled, fetched, events := Visit(complete, pageLimit, condensed, fetches, progress, queue, crawled, fetched, events, i);
      if stop {
        WalkStops(complete, pageLimit, condensed, fetches, run, i);
        break;
      }
      WalkNext(complete, pageLimit, condensed, fetches, run, i);
      i := i + 1;
    }
    if i == |queue| {
      WalkStops(complete, pageLimit, condensed, fetches, Run(queue, crawled, fetched), i);
    }
    count := |crawled|;
    processed := progress.pagesProcessed;
  }

  /** `crawl_docs(urls, output_dir, page_limit, format)`: the loop over the list with
      `ensure_url_scheme` as the completion, so that every crawled URL has a scheme. */
  method CrawlDocs(urls: seq<string>, pageLimit: Option<int>, condensed: bool, fetches: seq<Fetch>)
    returns (count: nat, processed: int, queue: seq<string>, crawled: set<string>, fetched: seq<string>, events: seq<Event>)
    ensures Run(queue, crawled, fetched) == Walk(Utils.EnsureUrlScheme, pageLimit, condensed, fetches, Run(urls, {}, []), 0)
    ensures Outcome(Utils.EnsureUrlScheme, urls, pageLimit, condensed, fetches, Run(queue, crawled, fetched))
    ensures events == Rounds(fetched, fetches[..|fetched|], condensed)
    ensures forall u :: u in crawled ==> Utils.HasScheme(u)
    ensures count == |crawled| && processed == count
  {
    count, processed, queue, crawled, fetched, events := CrawlList(Utils.EnsureUrlScheme, urls, pageLimit, condensed, fetches);
    CrawlOutcome(Utils.EnsureUrlScheme, urls, pageLimit, condensed, fetches);
    CrawledFetched(crawled, fetched, queue);
  }

  /** URLs fetched from the list all have a scheme. */
  lemma CrawledFetched(crawled: set<string>, fetched: seq<string>, queue: seq<string>)
    requires FromQueue(Utils.EnsureUrlScheme, fetched, queue) && forall u :: u in crawled ==> u in fetched
    ensures forall u :: u in crawled ==> Utils.HasScheme(u)
  {
    forall u | u in crawled
      ensures Utils.HasScheme(u)
    {
      var k :| 0 <= k < |fetched| && fetched[k] == u;
      var j :| 0 <= j < |queue| && fetched[k] == Utils.EnsureUrlScheme(queue[j]);
    }
  }
}
