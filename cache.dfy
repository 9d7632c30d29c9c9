/**
 * The crawl bookkeeping of `websum.py`: the page counter `CrawlProgress` and the
 * visit history `URLCache`.
 *
 * The cache is a Python dictionary from URL to an entry holding a timestamp and,
 * normally, a visit count. A dictionary keeps its keys in insertion order, so it is
 * modelled as a `Table`: the keys in order and the map from key to entry.
 * Reading and writing the JSON file behind the cache are left out: the loaded
 * contents are a constructor argument and saving does nothing.
 */
module Cache {
  import opened Wrappers

  // ---------------------------------------------------------------------------
  // CrawlProgress
  // ---------------------------------------------------------------------------

  /** `CrawlProgress`: the number of pages processed and an optional limit on it. */
  class CrawlProgress {
    const pageLimit: Option<int>
    var pagesProcessed: int

    /** `CrawlProgress(page_limit)`: nothing processed yet. */
    constructor (pageLimit: Option<int>)
      ensures this.pageLimit == pageLimit && pagesProcessed == 0
    {
      this.pageLimit := pageLimit;
      pagesProcessed := 0;
    }

    /** `limit_reached()`: never without a limit, and otherwise once the pages processed
        reach it. */
    function LimitReached(): (r: bool)
      reads this
      ensures pageLimit.None? ==> !r
      ensures r <==> pageLimit.Some? && pagesProcessed >= pageLimit.value
    {
      match pageLimit
      case None => false
      case Some(limit) => pagesProcessed >= limit
    }

    /** `should_process_more()`: exactly when the limit is not reached. */
    function ShouldProcessMore(): (r: bool)
      reads this
      ensures r == !LimitReached()
    {
      match pageLimit
      case None => true
      case Some(limit) => pagesProcessed < limit
    }

    /** `update()`: one more page processed. */
    method Update()
      modifies this
      ensures pagesProcessed == old(pagesProcessed) + 1
    {
      pagesProcessed := pagesProcessed + 1;
    }
  }

  /** Without a limit every state may process more. */
  lemma UnlimitedAlwaysMore(p: CrawlProgress)
    requires p.pageLimit.None?
    ensures p.ShouldProcessMore() && !p.LimitReached()
  {
  }

  // ---------------------------------------------------------------------------
  // The cache dictionary
  // ---------------------------------------------------------------------------

  /** A cache entry: `{'timestamp': ..., 'count': ...}`, the count possibly absent. */
  datatype Entry = Entry(timestamp: string, count: Option<int>)

  /** A dictionary: its keys in insertion order and its entries. */
  datatype Table = Table(keys: seq<string>, entries: map<string, Entry>) {
    /** The key list lists every key once. */
    ghost predicate Valid() {
      && (forall i, j :: 0 <= i < j < |keys| ==> keys[i] != keys[j])
      && (forall i :: 0 <= i < |keys| ==> keys[i] in entries)
      && (forall k :: k in entries ==> k in keys)
    }
  }

  /** The empty dictionary. */
  function EmptyTable(): (t: Table)
    ensures t.Valid() && t.entries == map[]
  {
    Table([], map[])
  }

  /** `d[k] = e`: a new key goes to the end, an existing one keeps its place. */
  function Put(t: Table, k: string, e: Entry): (r: Table)
    requires t.Valid()
    ensures r.Valid()
    ensures r.entries == t.entries[k := e]
    ensures k in t.entries ==> r.keys == t.keys
    ensures k !in t.entries ==> r.keys == t.keys + [k]
  {
    if k in t.entries then Table(t.keys, t.entries[k := e]) else Table(t.keys + [k], t.entries[k := e])
  }

  /** A valid table has one key per entry. */
  lemma {:induction false} TableSize(t: Table)
    requires t.Valid()
    ensures |t.keys| == |t.entries|
  {
    var ks := set i | 0 <= i < |t.keys| :: t.keys[i];
    assert ks == t.entries.Keys;
    DistinctCard(t.keys);
  }

  /** A list without repetitions has as many elements as its set. */
  lemma {:induction false} DistinctCard(s: seq<string>)
    requires forall i, j :: 0 <= i < j < |s| ==> s[i] != s[j]
    ensures |set i | 0 <= i < |s| :: s[i]| == |s|
    decreases |s|
  {
    if s != [] {
      var init := s[..|s| - 1];
      DistinctCard(init);
      var a := set i | 0 <= i < |init| :: init[i];
      var b := set i | 0 <= i < |s| :: s[i];
      assert b == a + {s[|s| - 1]};
      assert s[|s| - 1] !in a;
    }
  }

  /** `entry.get('count', 0)`. */
  function CountOrZero(e: Entry): int {
    e.count.GetOr(0)
  }

  /** `sum(item.get('count', 0) for item in d.values())` over the listed keys. */
  function Visits(keys: seq<string>, entries: map<string, Entry>): int
    requires forall i :: 0 <= i < |keys| ==> keys[i] in entries
    decreases |keys|
  {
    if keys == [] then 0
    else Visits(keys[..|keys| - 1], entries) + CountOrZero(entries[keys[|keys| - 1]])
  }

  /** The visits of a table. */
  function TableVisits(t: Table): int
    requires t.Valid()
  {
    Visits(t.keys, t.entries)
  }

  /** Changing the entry of a key not listed leaves the sum alone. */
  lemma {:induction false} VisitsOther(keys: seq<string>, entries: map<string, Entry>, k: string, e: Entry)
    requires forall i :: 0 <= i < |keys| ==> keys[i] in entries && keys[i] != k
    ensures Visits(keys, entries[k := e]) == Visits(keys, entries)
    decreases |keys|
  {
    if keys != [] {
      VisitsOther(keys[..|keys| - 1], entries, k, e);
    }
  }

  /** Changing the entry of a key listed once changes the sum by the change of its count. */
  lemma {:induction false} VisitsChange(keys: seq<string>, entries: map<string, Entry>, k: string, e: Entry)
    requires forall i :: 0 <= i < |keys| ==> keys[i] in entries
    requires forall i, j :: 0 <= i < j < |keys| ==> keys[i] != keys[j]
    requires k in keys
    ensures Visits(keys, entries[k := e]) == Visits(keys, entries) - CountOrZero(entries[k]) + CountOrZero(e)
    decreases |keys|
  {
    var init := keys[..|keys| - 1];
    if keys[|keys| - 1] == k {
      VisitsOther(init, entries, k, e);
    } else {
      assert k in init;
      VisitsChange(init, entries, k, e);
    }
  }

  /** The visits after `d[k] = e`. */
  lemma VisitsPut(t: Table, k: string, e: Entry)
    requires t.Valid()
    ensures TableVisits(Put(t, k, e)) == TableVisits(t) - (if k in t.entries then CountOrZero(t.entries[k]) else 0) + CountOrZero(e)
  {
    var r := Put(t, k, e);
    if k in t.entries {
      VisitsChange(t.keys, t.entries, k, e);
    } else {
      assert r.keys[..|r.keys| - 1] == t.keys;
      VisitsOther(t.keys, t.entries, k, e);
    }
  }

  // ---------------------------------------------------------------------------
  // URLCache
  // ---------------------------------------------------------------------------

  /** `get_stats()`. */
  datatype Stats = Stats(totalUrls: nat, totalVisits: int)

  /** What `merge` does: it returns a number, or the `KeyError` of a shared URL
      whose own entry has no count escapes. */
  datatype MergeOutcome = Returned(n: nat) | CountMissing

  /** The table after merging `other` into `t`, and whether a `KeyError` stopped it. */
  datatype MergeRun = MergeRun(table: Table, raised: bool)

  /** The URLs of the items of a JSON object. */
  ghost function Urls(other: seq<(string, Entry)>): set<string>
    decreases |other|
  {
    if other == [] then {} else {other[0].0} + Urls(other[1..])
  }

  /** A JSON object read from a file: no URL recurs later in it. */
  ghost predicate DistinctKeys(other: seq<(string, Entry)>)
    decreases |other|
  {
    other == [] || (other[0].0 !in Urls(other[1..]) && DistinctKeys(other[1..]))
  }

  /** Every item's URL is among the URLs. */
  lemma {:induction false} UrlsIndex(other: seq<(string, Entry)>, i: nat)
    requires i < |other|
    ensures other[i].0 in Urls(other)
    decreases |other|
  {
    if i > 0 {
      UrlsIndex(other[1..], i - 1);
    }
  }

  /** Some URL of `other` is already cached without a count. */
  ghost predicate RaisesOn(t: Table, other: seq<(string, Entry)>) {
    exists k :: k in Urls(other) && k in t.entries && t.entries[k].count.None?
  }

  /** `self.cache[url]['count'] += data.get('count', 1)`: the timestamp is kept. */
  function Bumped(mine: Entry, data: Entry): (r: Entry)
    requires mine.count.Some?
    ensures r.timestamp == mine.timestamp && r.count.Some?
    ensures r.count.value == mine.count.value + (if data.count.Some? then data.count.value else 1)
  {
    mine.(count := Some(mine.count.value + data.count.GetOr(1)))
  }

  /** Merging the item `(url, data)` raises: `url` is cached without a count. */
  predicate Raises(t: Table, item: (string, Entry)) {
    item.0 in t.entries && t.entries[item.0].count.None?
  }

  /** The table after merging one item that does not raise: a shared URL is bumped,
      a new one copied, every other entry kept. */
  function Step(t: Table, item: (string, Entry)): (r: Table)
    requires t.Valid() && !Raises(t, item)
    ensures r.Valid() && t.keys <= r.keys
    ensures r.entries.Keys == t.entries.Keys + {item.0}
    ensures forall k :: k in t.entries && k != item.0 ==> r.entries[k] == t.entries[k]
    ensures r.entries[item.0] == if item.0 in t.entries then Bumped(t.entries[item.0], item.1) else item.1
  {
    var e := if item.0 in t.entries then Bumped(t.entries[item.0], item.1) else item.1;
    UpdateKeys(t.entries, item.0, e);
    Put(t, item.0, e)
  }

  lemma UpdateKeys<K, V>(m: map<K, V>, k: K, v: V)
    ensures m[k := v].Keys == m.Keys + {k}
  {
  }

  /** The loop of `merge`, item by item, until a shared URL without its own count raises. */
  function Merged(t: Table, other: seq<(string, Entry)>): (r: MergeRun)
    requires t.Valid()
    ensures r.table.Valid()
    decreases |other|
  {
    if other == [] then MergeRun(t, false)
    else if Raises(t, other[0]) then MergeRun(t, true)
    else Merged(Step(t, other[0]), other[1..])
  }

  /** The merge of an item that does not raise goes on with the rest. */
  lemma MergeGoesOn(t: Table, s: seq<(string, Entry)>)
    requires t.Valid() && s != [] && !Raises(t, s[0])
    ensures Merged(t, s) == Merged(Step(t, s[0]), s[1..])
  {
  }

  /** The merge of an item that raises stops there. */
  lemma MergeRaises(t: Table, s: seq<(string, Entry)>)
    requires t.Valid() && s != [] && Raises(t, s[0])
    ensures Merged(t, s) == MergeRun(t, true)
  {
  }

  /** A cached URL that `other` does not list is left as it was, even when the merge
      raises. */
  lemma {:induction false} MergedUntouched(t: Table, other: seq<(string, Entry)>, k: string)
    requires t.Valid() && k in t.entries && k !in Urls(other)
    ensures k in Merged(t, other).table.entries && Merged(t, other).table.entries[k] == t.entries[k]
    decreases |other|
  {
    if other != [] {
      if Raises(t, other[0]) {
        MergeRaises(t, other);
      } else {
        MergeGoesOn(t, other);
        MergedUntouched(Step(t, other[0]), other[1..], k);
      }
    }
  }

  /** The cached keys keep their order, and only new ones are appended. */
  lemma {:induction false} MergedKeepsOrder(t: Table, other: seq<(string, Entry)>)
    requires t.Valid()
    ensures t.keys <= Merged(t, other).table.keys
    decreases |other|
  {
    if other != [] {
      if Raises(t, other[0]) {
        MergeRaises(t, other);
      } else {
        var t' := Step(t, other[0]);
        MergeGoesOn(t, other);
        MergedKeepsOrder(t', other[1..]);
        PrefixTrans(t.keys, t'.keys, Merged(t, other).table.keys);
      }
    }
  }

  lemma PrefixTrans<T>(a: seq<T>, b: seq<T>, c: seq<T>)
    requires a <= b && b <= c
    ensures a <= c
  {
    assert c[..|a|] == b[..|a|];
  }

  /** A merge that does not raise holds the cached URLs and the URLs of `other`. */
  lemma {:induction false} MergedKeys(t: Table, other: seq<(string, Entry)>)
    requires t.Valid() && !Merged(t, other).raised
    ensures Merged(t, other).table.entries.Keys == t.entries.Keys + Urls(other)
    decreases |other|
  {
    if other != [] {
      if Raises(t, other[0]) {
        MergeRaises(t, other);
      } else {
        MergeGoesOn(t, other);
        MergedKeys(Step(t, other[0]), other[1..]);
      }
    }
  }

  /** The merge raises exactly when some URL of `other` is cached without a count. */
  lemma {:induction false} MergedRaisesIff(t: Table, other: seq<(string, Entry)>)
    requires t.Valid() && DistinctKeys(other)
    ensures Merged(t, other).raised <==> RaisesOn(t, other)
    decreases |other|
  {
    if other != [] {
      if Raises(t, other[0]) {
        MergeRaises(t, other);
        assert other[0].0 in Urls(other);
      } else {
        MergeGoesOn(t, other);
        MergedRaisesIff(Step(t, other[0]), other[1..]);
        RaisesOnStep(t, other, Step(t, other[0]));
      }
    }
  }

  /** After a first item that does not raise, the rest raises on the new table `t'`
      exactly when the whole raises on the old one. */
  lemma RaisesOnStep(t: Table, other: seq<(string, Entry)>, t': Table)
    requires other != [] && DistinctKeys(other) && !Raises(t, other[0])
    requires t'.entries.Keys == t.entries.Keys + {other[0].0}
    requires forall k :: k in t.entries && k != other[0].0 ==> t'.entries[k] == t.entries[k]
    ensures RaisesOn(t', other[1..]) <==> RaisesOn(t, other)
  {
    var url := other[0].0;
    assert Urls(other) == {url} + Urls(other[1..]);
    if RaisesOn(t', other[1..]) {
      var k :| k in Urls(other[1..]) && k in t'.entries && t'.entries[k].count.None?;
      assert k in Urls(other) && k in t.entries && t.entries[k].count.None?;
    }
    if RaisesOn(t, other) {
      var k :| k in Urls(other) && k in t.entries && t.entries[k].count.None?;
      assert k in Urls(other[1..]) && k in t'.entries && t'.entries[k].count.None?;
    }
  }

  /** After a merge that does not raise, each URL of `other` holds what its item gives
      it: a cached URL its own count plus the other count (1 if absent) under its own
      timestamp, a new URL the other entry. */
  lemma {:induction false} MergedEntry(t: Table, other: seq<(string, Entry)>, j: nat)
    requires t.Valid() && DistinctKeys(other) && !Merged(t, other).raised && j < |other|
    ensures !Raises(t, other[j])
    ensures other[j].0 in Merged(t, other).table.entries
    ensures Merged(t, other).table.entries[other[j].0] == Step(t, other[j]).entries[other[j].0]
    decreases |other|
  {
    if Raises(t, other[0]) {
      MergeRaises(t, other);
    } else {
      var t' := Step(t, other[0]);
      MergeGoesOn(t, other);
      if j == 0 {
        MergedUntouched(t', other[1..], other[0].0);
      } else {
        UrlsIndex(other[1..], j - 1);
        assert other[1..][j - 1] == other[j];
        MergedEntry(t', other[1..], j - 1);
      }
    }
  }

  /** The items from `i` on are item `i` followed by the items from `i + 1` on. */
  lemma Unroll<T>(items: seq<T>, i: nat)
    requires i < |items|
    ensures items[i..] != [] && items[i..][0] == items[i] && items[i..][1..] == items[i + 1..]
  {
  }

  /** The count `add_url` gives a URL: one more than before, absent counting as 0. */
  function NextCount(t: Table, url: string): int {
    (if url in t.entries then CountOrZero(t.entries[url]) else 0) + 1
  }

  /** `URLCache`: whether it is enabled and the cache dictionary. */
  class URLCache {
    const enabled: bool
    var cache: Table

    ghost predicate Valid()
      reads this
    {
      cache.Valid()
    }

    /** `URLCache(cache_file, enabled)`, `loaded` being what `_load_cache` read
        (the empty table for a missing or malformed file). */
    constructor (enabled: bool, loaded: Table)
      requires loaded.Valid()
      ensures Valid() && this.enabled == enabled && cache == loaded
    {
      this.enabled := enabled;
      cache := loaded;
    }

    /** `add_url(url)`: when enabled, the URL gets the time and one more visit. */
    method AddUrl(url: string, now: string)
      requires Valid()
      modifies this
      ensures Valid()
      ensures enabled ==> cache == Put(old(cache), url, Entry(now, Some(NextCount(old(cache), url))))
      ensures !enabled ==> cache == old(cache)
    {
      if enabled {
        var count := if url in cache.entries then cache.entries[url].count.GetOr(0) else 0;
        cache := Put(cache, url, Entry(now, Some(count + 1)));
      }
    }

    /** `has_url(url)`: never true when disabled. */
    function HasUrl(url: string): (r: bool)
      reads this
      ensures r <==> enabled && url in cache.entries
    {
      if enabled then url in cache.entries else false
    }

    /** `get_stats()`: the number of URLs and the sum of their counts. */
    method GetStats() returns (r: Stats)
      requires Valid()
      ensures r.totalUrls == |cache.entries|
      ensures r.totalVisits == TableVisits(cache)
    {
      TableSize(cache);
      var total := 0;
      var i := 0;
      while i < |cache.keys|
        invariant 0 <= i <= |cache.keys|
        invariant total == Visits(cache.keys[..i], cache.entries)
      {
        assert cache.keys[..i + 1][..i] == cache.keys[..i];
        total := total + CountOrZero(cache.entries[cache.keys[i]]);
        i := i + 1;
      }
      assert cache.keys[..i] == cache.keys;
      r := Stats(|cache.keys|, total);
    }

    /** `merge(other_cache_file)`, `other` being the file's object (`None` for a missing
        or malformed file), which as a JSON object holds each URL once. */
    method Merge(other: Option<seq<(string, Entry)>>) returns (outcome: MergeOutcome)
      requires Valid()
      requires other.Some? ==> DistinctKeys(other.value)
      modifies this
      ensures Valid()
      ensures other.None? ==> cache == old(cache) && outcome == Returned(0)
      ensures other.Some? ==> cache == Merged(old(cache), other.value).table
      ensures other.Some? ==> outcome == if Merged(old(cache), other.value).raised then CountMissing else Returned(|other.value|)
    {
      if other.None? {
        return Returned(0);
      }
      var t, raised := MergeItems(cache, other.value);
      cache := t;
      outcome := if raised then CountMissing else Returned(|other.value|);
    }
  }

  /** The two branches of the loop body make one `Step`. */
  lemma StepIs(t: Table, item: (string, Entry))
    requires t.Valid() && !Raises(t, item)
    ensures item.0 in t.entries ==> Step(t, item) == Put(t, item.0, Bumped(t.entries[item.0], item.1))
    ensures item.0 !in t.entries ==> Step(t, item) == Put(t, item.0, item.1)
  {
  }

  /** The loop of `merge` over the entries of the loaded file, on a copy of the table:
      it stops with `raised` at the first shared URL whose cached entry has no count, and
      otherwise ends with every entry merged in. */
  method MergeItems(table: Table, items: seq<(string, Entry)>) returns (t: Table, raised: bool)
    requires table.Valid()
    ensures MergeRun(t, raised) == Merged(table, items)
  {
    t := table;
    ghost var run := Merged(t, items);
    var i := 0;
    while i < |items|
      invariant 0 <= i <= |items|
      invariant t.Valid()
      invariant Merged(t, items[i..]) == run
    {
      Unroll(items, i);
      if Raises(t, items[i]) {
        MergeRaises(t, items[i..]);
        return t, true;
      }
      MergeGoesOn(t, items[i..]);
      var url := items[i].0;
      var data := items[i].1;
      StepIs(t, items[i]);
      if url in t.entries {
        t := Put(t, url, Bumped(t.entries[url], data));
      } else {
        t := Put(t, url, data);
      }
      i := i + 1;
    }
    assert items[i..] == [];
    raised := false;
  }

  /** One more visit while enabled: the visit total grows by one, and the URL count by
      one exactly when the URL is new. */
  lemma AddUrlCounts(t: Table, url: string, now: string)
    requires t.Valid()
    ensures var r := Put(t, url, Entry(now, Some(NextCount(t, url))));
      TableVisits(r) == TableVisits(t) + 1
      && |r.entries| == |t.entries| + (if url in t.entries then 0 else 1)
  {
    VisitsPut(t, url, Entry(now, Some(NextCount(t, url))));
  }
}
