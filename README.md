# websum, modelled in Dafny

websum crawls documentation sites and turns the pages it fetches into Markdown
and JSON knowledge-base files. This project models the deterministic core of the
crawler and of two post-processing scripts, and proves properties of it:

- **Crawl bookkeeping** (`cache.dfy`, `crawl.dfy`): the page counter
  `CrawlProgress` and the visit history `URLCache` are classes whose methods update
  their fields. `safe_crawl`'s retry loop and `crawl_docs`'s worklist loop are
  methods. The worklist loop walks a URL list that it extends as it goes, and keeps
  the set of crawled URLs. Its final state is proved equal to a reference walk
  over the list, one position at a time (`Crawl.Walk`), and the walk is proved to
  end in the trace of the fetches it makes: the URLs fetched in order, each with
  its outcome. The loop is `Crawl.CrawlList`, which takes the URL
  completion as a parameter and runs its body as `Crawl.Visit`; `Crawl.CrawlDocs`
  runs it with `ensure_url_scheme`.
- **Links and file names** (`links.dfy`, `filenames.dfy`): `extract_page_links`
  after HTML parsing, and `sanitize_filename` and `get_safe_filename`.
- **Markdown post-processing of `websum.py`** (`markdown.dfy`, `scanner.dfy`,
  `codeblock.dfy`): `clean_markdown`, `format_text_content`, the envelope and
  dedent of `format_code_block`, and the line scan of `process_markdown_content`.
  The `websum.py` scan shadows the version it imports from `modules/utils.py`;
  the scan lives in module `MarkdownScan` and the imported one in `Utils`.
- **Summaries** (`summary.dfy`): the selection and limit logic of
  `create_condensed_summary`, and the `safe_title`, `word_count` and `summary`
  projection of `save_to_knowledge_base`.
- **`modules/utils.py`** (`utils.dfy`): `clean_text`, `is_navigation_text`,
  `ensure_url_scheme`, `clean_markdown`, `process_code` and
  `process_markdown_content`.
- **Post-processing scripts** (`compress.dfy`, `merge_json.dfy`, `dedup.dfy`):
  - `compress_page`;
  - the digest de-duplication of `merge_pages` in
    `scraped_data/browser-use/compress_knowledge.py`;
  - `clean_text` and `extract_instructions`, and the de-duplication of
    `process_directory`, in `scraped_data/browser-use/merge_json.py`.
  Both de-duplication loops are proved against one generic specification in
  `Dedup`: the first item of each key, in listing order.

The support modules are written for this model:

- `strings.dfy`: Python's `str` methods.
- `regex.dfy`: `re.sub` as a left-to-right scan over a matcher. Each pattern is
  a hand-written matcher whose greedy or lazy behaviour is argued in its comment.
- `json.dfy`: JSON values.
- `wrappers.dfy`: `Option`.

Exceptions the source raises become `None` or an explicit outcome. The
remaining external inputs are parameters:

- `datetime.now()`;
- the HTTP fetches, as a sequence of outcomes;
- `urljoin`/`urlparse`;
- MD5 and Python's `hash`;
- the directory listings and file contents;
- the regular expressions that are not modelled.

Five places where the code and its own descriptions disagree; the model follows
the code:

- `clean_markdown` of `websum.py` is not idempotent. Its header rule inserts one
  blank line per match, and scanning resumes one character into the next line, so
  `"a\n# A\n# B\nx"` changes again on a second pass. No idempotence is claimed.
- `format_code_block` strips the code before it looks for the common
  indentation. The first line therefore always sits at the margin, and the dedent
  only empties whitespace-only lines (`Markdown.PythonLinesOnlyBlanked`).
- `URLCache.merge` lets a `KeyError` escape when a shared URL's cached entry has
  no `count`. The entries merged before it stay merged. The model returns that
  partial table with the outcome `CountMissing`.
- `clean_markdown` of `websum.py` collapses runs of three or more newlines before it
  removes trailing spaces and tabs. A blank line holding a space therefore survives
  the collapse and becomes an empty line afterwards: `"a\n \n\nb"` comes out as
  `"a\n\n\nb"`, three newlines in a row (`Markdown.SpacedBlankLineKept`,
  `Markdown.BlankRunAfterCollapse`).
- Its line-ending normalisation is a single `replace('\r\n', '\n')`, so `"\r\r\n"`
  still holds a CRLF afterwards (`Markdown.CrlfLeftBehind`).

## Model

| member | source | states |
|---|---|---|
| Cache.CrawlProgress.constructor | websum.py:204-213 | the limit is kept and no page is processed yet |
| Cache.CrawlProgress.LimitReached | websum.py:225-229 | reached exactly when there is a limit and the pages processed are at least that limit; never without a limit |
| Cache.CrawlProgress.ShouldProcessMore | websum.py:215-219 | exactly the negation of `limit_reached()`, in every state |
| Cache.CrawlProgress.Update | websum.py:221-223 | the counter grows by exactly one and the limit is unchanged |
| Cache.UnlimitedAlwaysMore | websum.py:215-229 | without a limit every state may process more and never reaches the limit |
| Cache.Put | websum.py:288-291 | dictionary assignment: the map is updated at one key, a new key is appended to the insertion order, an existing key keeps its place |
| Cache.VisitsPut | websum.py:304 | after one assignment the visit total changes by the new count minus the old one (absent counts 0) |
| Cache.Bumped | websum.py:317 | a shared URL keeps its timestamp and its count grows by the other count, 1 when absent |
| Cache.Step | websum.py:314-320 | one merged item: its URL is added or bumped, the key order only grows, every other entry is unchanged |
| Cache.Merged | websum.py:314-321 | the merge loop over the other file's items keeps the table well formed |
| Cache.MergeGoesOn | websum.py:314-321 | an item that does not raise is merged and the loop goes on with the rest |
| Cache.MergeRaises | websum.py:317 | an item whose cached entry has no count raises and stops the loop |
| Cache.MergedUntouched | websum.py:314-321 | a cached URL the other file does not list keeps its entry, even when the merge raises |
| Cache.MergedKeepsOrder | websum.py:314-321 | the cached keys keep their order and new URLs are only appended |
| Cache.MergedKeys | websum.py:314-321 | the keys after a merge that does not raise are the union of the cached URLs and the other file's URLs |
| Cache.MergedRaisesIff | websum.py:314-321 | the merge raises exactly when some URL of the other file is cached without a count |
| Cache.MergedEntry | websum.py:315-320 | after a merge, each URL of the other file holds its cached count plus the other count under its own timestamp, or the other entry when it is new |
| Cache.URLCache.constructor | websum.py:266-277 | the cache holds what was loaded, the empty table for a missing or malformed file |
| Cache.URLCache.AddUrl | websum.py:285-292 | when enabled the URL gets the time and one more than its old count (0 if absent), and every other key is unchanged; when disabled nothing changes |
| Cache.URLCache.HasUrl | websum.py:294-296 | true exactly when the cache is enabled and holds the URL, so never when disabled, whatever was loaded |
| Cache.URLCache.GetStats | websum.py:298-305 | the number of URLs and the sum of their counts, absent counts as 0 |
| Cache.URLCache.Merge | websum.py:307-326 | a missing or malformed file returns 0 and leaves the cache unchanged; otherwise, the file holding each URL once as a JSON object does, the cache becomes the merged table, and the result is the number of entries in the file, or `CountMissing` when the merge raises |
| Cache.MergeItems | websum.py:314-321 | the loop over the file's entries computes the table and raised flag of the merge specification |
| Cache.StepIs | websum.py:315-320 | the two branches of the loop body, bump or copy, are one merge step |
| Cache.AddUrlCounts | websum.py:285-305 | one enabled visit adds one to the visit total, and one to the URL count exactly when the URL is new |
| Crawl.Pow2 | websum.py:454 | `2 ** attempt` is at least 1 |
| Crawl.SafeCrawl | websum.py:427-456 | at most three attempts; the result is the page of the first successful attempt, or `None` exactly when none of the three succeeds; a sleep follows exactly the attempts that raised |
| Crawl.BackoffBounds | websum.py:442-454 | at most one delay per attempt, and the delays of `n` attempts sum to less than `2 ** n` |
| Crawl.BackoffWithoutRaise | websum.py:452-454 | without an exception `safe_crawl` never sleeps |
| Crawl.Round | websum.py:1163-1176 | one fetch is a wait, a crawl and, on success, the addition of its URL |
| Crawl.PacedRound | websum.py:1163-1176 | each round keeps the trace paced: every fetch right after exactly one wait |
| Crawl.NotCrawled | websum.py:1181 | a new link is an extracted link not yet crawled, and every extracted link not yet crawled is new |
| Crawl.NotCrawledAppend | websum.py:1181 | the links kept from two lists are those kept from each, the first list's first: the filter keeps the extracted order |
| Crawl.NotCrawledOne | websum.py:1181 | a single link is kept exactly when it is not crawled; with `NotCrawledAppend`, the new links are the extracted links not crawled, in extraction order |
| Crawl.FromQueueGrows | websum.py:1154-1181 | extending the list and fetching one of its URLs keeps every fetched URL a listed URL given its scheme |
| Crawl.Queued | websum.py:1179-1181 | the links a saved page appends: none without HTML, otherwise its extracted links not crawled, its own URL counted as crawled |
| Crawl.SavedUrls | websum.py:1163-1176 | the URLs added by a run of fetches: each fetched URL whose page `safe_crawl` returned and whose save did not raise |
| Crawl.Rounds | websum.py:1163-1176 | the trace of a run of fetches: one round per fetch, in order, each adding its URL exactly when the page was saved |
| Crawl.Appended | websum.py:1168-1181 | what a run of fetches appends to the list: after each saved page, its links not crawled by then |
| Crawl.TraceSnoc | websum.py:1163-1181 | one more fetch adds its URL when saved, appends its round to the trace, and appends its links not crawled |
| Crawl.SavedUrlsIff | websum.py:1168-1175 | a URL is added exactly when one of its fetches saved the page |
| Crawl.RoundsPaced | websum.py:1163-1166 | the trace of any run of fetches is paced: every fetch right after exactly one wait |
| Crawl.RoundsAdded | websum.py:1168-1175 | the trace adds exactly the URLs of the saved pages |
| Crawl.RoundsCrawl | websum.py:1163-1166 | the trace crawls exactly the fetched URLs |
| Crawl.FetchKeepsRefetched | websum.py:1158-1160 | fetching a URL not crawled keeps every refetched URL unsaved by its earlier fetches |
| Crawl.Next | websum.py:1158-1181 | the state after one list position: unchanged for a crawled URL; otherwise the URL is fetched with the next fetch, and a saved page adds the URL and appends its links not crawled; the state only grows, by at most one fetch |
| Crawl.Walk | websum.py:1154-1191 | the run of the loop from list position `i`, one position at a time, stopping at the end of the list, at the limit, or when the fetches run out; it only extends the state and uses no more fetches than there are |
| Crawl.WalkNext | websum.py:1154-1181 | where the loop does not stop, the walk goes on from the state after the current position, one position further on |
| Crawl.WalkStops | websum.py:1154-1156 | the walk ends in the current state at the end of the list, once the limit is reached, and when a URL to fetch finds no fetch left |
| Crawl.UnsavedSeed | websum.py:1154-1191 | one seed URL whose fetch is not saved is fetched once, and the crawled set stays empty, so `crawl_docs` returns 0 |
| Crawl.RoundsSnoc | websum.py:1163-1176 | one more fetch appends its round to the trace |
| Crawl.InvNext | websum.py:1154-1181 | each position where the loop goes on keeps the walk's invariant: the state is what the fetches made leave, every URL met was fetched, and the walk still ends where the whole walk does |
| Crawl.InvFinal | websum.py:1154-1191 | where the walk stops, the state is its end and has every promised property of the outcome (`Outcome`) |
| Crawl.WalkOutcome | websum.py:1154-1191 | from any position where the invariant holds, the walk ends in the promised outcome |
| Crawl.CrawlOutcome | websum.py:1149-1191 | the walk over the given list ends in the promised outcome: the crawled set, trace and extended list are those of the fetches made, a URL is fetched again only when no earlier fetch saved it, the loop stops only when every listed URL was met, the limit was reached or the fetches ran out, every fetched URL is a completed listed URL, every fetch follows one wait, and the limit bounds the crawled set |
| Crawl.Visit | websum.py:1155-1181 | one pass of the loop body: it stops the loop exactly where the walk stops, and otherwise leaves the walk's next state, extends the trace by the round of its fetch, and keeps the progress counter equal to the size of the crawled set |
| Crawl.CrawlList | websum.py:1149-1191 | the loop, with the URL completion as a parameter: its final list, crawled set and fetched URLs are exactly the walk's, its trace has one round per fetch, and it returns the size of the crawled set, equal to the progress counter |
| Crawl.CrawledFetched | websum.py:1158-1175 | URLs completed by `ensure_url_scheme` and crawled all have a scheme |
| Crawl.CrawlDocs | websum.py:1149-1191 | the outcome is exactly the walk over the list, position by position (`Walk`), with `ensure_url_scheme` as the completion; therefore (`Outcome`) the `k`-th fetch is of the `k`-th fetched URL, a listed URL given its scheme, and uses the `k`-th fetch outcome; the crawled set, the trace and the extended list are those of the fetches made (a URL added exactly when its page was saved, a saved page with HTML appending its links not crawled by then); a URL is fetched again only when no earlier fetch saved it; the loop stops only when every listed URL has been met, the limit is reached, or the outcomes run out; the result is the size of the crawled set and equals the progress counter; every crawled URL has a scheme; every fetch follows one wait; at most `page_limit` pages are added, and a limit of 0 or less fetches nothing |
| Links.BelowTransitive | websum.py:491 | the `str` order `sorted` uses is transitive |
| Links.BelowTotal | websum.py:491 | the `str` order is total |
| Links.Insert | websum.py:489-491 | adding a link to the sorted set gives the old links and the new one |
| Links.InsertAscending | websum.py:489-491 | adding a link to a strictly ascending list keeps it strictly ascending |
| Links.Resolve | websum.py:482-483 | an absolute `http://` or `https://` reference is kept unresolved |
| Links.Normalize | websum.py:488 | the URL before its first `#` with its trailing slashes removed: that part is a prefix of the URL ending at its first `#` or at its end, and the result is a prefix of that part, followed only by slashes in it and not itself ending in `/` |
| Links.ExtractPageLinks | websum.py:476-491 | strictly ascending, so without duplicates; a link is in the result exactly when some anchor gives it; no link holds `#` or ends with `/` |
| Links.LinkShape | websum.py:482-489 | each link comes from an anchor on the page's host or a host containing "docs", and is a prefix of its resolved URL |
| Links.ForeignDropped | websum.py:486 | an anchor on another host without "docs" in its name gives no link |
| Filenames.ReplaceUnsafe | websum.py:574 | every unsafe character becomes `_`, every other character is kept, the length is unchanged |
| Filenames.CleanPart | websum.py:572-577 | a cleaned segment has at most 50 characters and none of the unsafe ones |
| Filenames.CleanPartLength | websum.py:576-577 | a segment longer than 50 characters becomes its first 47 plus `...`; a shorter one is kept whole |
| Filenames.CleanPartKeeps | websum.py:572-577 | a segment of at most 50 safe characters, without `?`, is its own cleaning |
| Filenames.PathParts | websum.py:562-566 | the list of segments is never empty |
| Filenames.PathPartsIndex | websum.py:562-566 | a path of slashes alone gives the single segment `index`; any other path gives its segments between slashes |
| Filenames.CleanParts | websum.py:569-578 | every segment is cleaned, in order |
| Filenames.SanitizeFilename | websum.py:540-581 | the loop computes the name: the host, `_`, and the cleaned segments joined by `_` |
| Filenames.JoinSafe | websum.py:581 | joining safe segments with `_` gives safe text |
| Filenames.SanitizedShape | websum.py:558-581 | the name starts with the host and `_`, and the rest holds no unsafe character |
| Filenames.SanitizedIndex | websum.py:565-566 | an empty path, or one of slashes alone, gives `<host>_index` |
| Filenames.SuffixDropped | websum.py:902 | a trailing `- Documentation` or `- v1.2.3`-style suffix is cut from a title without dashes |
| Filenames.LastNonEmpty | websum.py:895-899 | the last non-empty path segment: one of them, with only empty segments after it; none exactly when every segment is empty |
| Filenames.TitleOrDefault | websum.py:898-899 | the title used is never empty |
| Filenames.GetSafeFilename | websum.py:875-909 | the name has only lower-case letters, digits, `_` and `-`, and never two `_` in a row |
| Filenames.SafeNameFixed | websum.py:902-908 | a non-empty safe name given as the title is returned unchanged |
| Filenames.GetSafeFilenameIdempotent | websum.py:875-909 | a non-empty name it made, given back as the title, comes back unchanged, whatever the URL |
| Markdown.CleanMarkdown | websum.py:1397-1410 | the result has no whitespace at either end |
| Markdown.CleanMarkdownOneLine | websum.py:1397-1410 | a single line is only stripped |
| Markdown.CleanMarkdownNoTrailingBlanks | websum.py:1397-1410 | no space or tab sits directly before a newline in the result |
| Markdown.TrailingBlanksRemoved | websum.py:1405 | after `re.sub(r'[ \t]+\n', '\n', ...)` no space or tab sits before a newline, and the result starts with a newline only if the input did or its first match was removed |
| Markdown.HeaderGapKeepsNoBlank | websum.py:1408 | the header-spacing rule keeps text without a blank before a newline so, and starts with a newline only if its input did |
| Markdown.CrlfLeftBehind | websum.py:1401 | `"\r\r\n".replace('\r\n', '\n')` is `"\r\n"`: a single pass can leave a CRLF |
| Markdown.SpacedBlankLineKept | websum.py:1404 | a newline, a blank, and two newlines: the run of newlines is broken by the blank, so `\n{3,}` leaves the text as it is |
| Markdown.BlankBeforeNewline | websum.py:1405 | a space or tab directly before a newline is removed |
| Markdown.NewlineCopied | websum.py:1405 | a newline starts no match of `[ \t]+\n` and is copied |
| Markdown.BlankLineEmptied | websum.py:1405 | a line holding a single space or tab becomes an empty line |
| Markdown.BlankRunAfterCollapse | websum.py:1404-1405 | a newline, a blank, and two newlines become three newlines: the removal of trailing blanks after the collapse of `\n{3,}` leaves three newlines in a row |
| Markdown.HeaderSpaced | websum.py:1408 | a header line followed by a non-empty line gets a blank line inserted after it |
| Markdown.HeaderBeforeBlankLine | websum.py:1408 | a header line already followed by a blank line is left alone |
| Markdown.FormatTextContent | websum.py:115-126 | `format_text_content`; its contract is `ParagraphsBecomeLines` |
| Markdown.ParagraphsBecomeLines | websum.py:115-126 | single-line paragraphs separated by blank lines come out one per line |
| Markdown.IsPythonCode | websum.py:67 | the Python-detection search; its contract is stated by `PythonSearch`, `PythonInContext` and `NoLettersNoPython` |
| Markdown.PythonSearch | websum.py:67 | the search succeeds exactly when the pattern matches at some position |
| Markdown.PythonInContext | websum.py:67 | `import`, `def` or `class`, whitespace and a word character, anywhere, mark the code as Python |
| Markdown.NoLettersNoPython | websum.py:67 | code without a letter is never taken for Python |
| Markdown.PopLeadingBlankLines | websum.py:79-80 | the loop drops exactly the leading blank lines |
| Markdown.PopTrailingBlankLines | websum.py:81-82 | the loop drops exactly the trailing blank lines |
| Markdown.TrimmedLines | websum.py:79-82 | the result is the original lines between two runs of blank lines, and starts and ends with a non-blank line |
| Markdown.MinIndentAttained | websum.py:88-90 | some non-blank line has exactly the minimal indentation |
| Markdown.DedentBlanks | websum.py:92 | dedenting empties the blank lines and keeps the others non-blank |
| Markdown.DedentIdempotent | websum.py:88-92 | dedenting twice is dedenting once |
| Markdown.FormatCodeBlock | websum.py:66-113 | the method computes the block the specification function gives |
| Markdown.FormattedCodeBlock | websum.py:48-113 | the value of `format_code_block`, computed by `FormatCodeBlock`; its contract is stated by `CodeBlockTagged`, `PythonLinesOnlyBlanked`, `PythonBodyUnchanged` and `BlankCodeBlock` |
| Markdown.CodeBlockTagged | websum.py:67-113 | the block is tagged `python` exactly when the pattern is found; other code is only stripped |
| Markdown.PythonLinesOnlyBlanked | websum.py:70-95 | for Python, trimming and dedenting only empty whitespace-only lines of the stripped code |
| Markdown.PythonBodyUnchanged | websum.py:70-95 | stripped Python code without whitespace-only lines reaches the layout passes unchanged |
| Markdown.BlankCodeBlock | websum.py:70-113 | empty or whitespace-only code gives the empty untagged block, three lines once stripped |
| CodeBlock.UnfencedFenced | websum.py:113 | the fenced envelope can be taken apart again: a newline-free tag and any body come back |
| MarkdownScan.Render | websum.py:1437-1451 | what the scan emits outside a code block: a plain line as it is, a fence opening a block; its contract is stated by `RenderClosedBlock`, `RenderUnclosedBlock` and `RenderShorter` |
| MarkdownScan.OpenBlock | websum.py:1437-1449 | what the scan emits inside a code block: the buffered lines formatted as one block at the closing fence, nothing when none comes; its contract is stated by `RenderClosedBlock` and `RenderUnclosedBlock` |
| MarkdownScan.ProcessedMarkdown | websum.py:1412-1453 | the result of `process_markdown_content`: "" for "", else the scan of its lines rejoined; its contract is `ProcessedWithoutFences` and the loop's `ProcessMarkdownContent` |
| MarkdownScan.ProcessMarkdownContent | websum.py:1429-1453 | the loop, with its flag and buffer, computes the specification of the scan |
| MarkdownScan.ProcessedWithoutFences | websum.py:1429-1453 | text with no fence line, the empty text included, comes back unchanged |
| MarkdownScan.RenderClosedBlock | websum.py:1438-1451 | a closed block, both fences included, becomes one `format_code_block` element, and the lines before and after are handled on their own |
| MarkdownScan.RenderUnclosedBlock | websum.py:1438-1449 | the lines after a fence that is never closed are dropped |
| MarkdownScan.RenderShorter | websum.py:1437-1451 | the scan emits at most one element per input line |
| Summary.Paragraphs | websum.py:727 | every paragraph kept has non-whitespace content |
| Summary.NonBlank | websum.py:727 | a piece is kept exactly when its stripped text is not empty |
| Summary.Qualifying | websum.py:743-760 | the qualifying items are members of the input, qualify, and are no more than the input |
| Summary.QualifyingPrefix | websum.py:743-760 | the qualifying items of a prefix open those of the whole |
| Summary.TakeSettled | websum.py:749-750 | the first `n` items are fixed once a prefix holds `n` of them, so the loop may stop |
| Summary.FirstQualifying | websum.py:743-760 | at most `n` items, each qualifying and in the input; fewer only when no other item qualifies |
| Summary.FindCoreMessage | websum.py:732-739 | the loop picks the message of the first substantial paragraph, or "" when there is none |
| Summary.PickKeyPoints | websum.py:742-751 | the key points are the first five paragraphs after the first that have at least eight words and are not navigation, in order |
| Summary.PickTerms | websum.py:754-760 | the terms are the first five raw terms longer than two characters that are not navigation, in order |
| Summary.CreateCondensedSummary | websum.py:718-770 | `None` exactly when the content, the readable text or its paragraphs are empty; otherwise the stripped title, the core message, the key points and the terms |
| Summary.CoreOf | websum.py:736-738 | the core message of one paragraph; its contract is `CoreOfShape` |
| Summary.CoreMessage | websum.py:732-739 | the core message of a paragraph list; its contract is stated by `CoreMessageEmpty` and `CoreMessageFirst` |
| Summary.CoreOfShape | websum.py:734-738 | a core message ends with `.`, `,`, `!` or `?`, and is 10 to 25 words of its paragraph joined by spaces, possibly followed by `...` |
| Summary.CoreMessageEmpty | websum.py:732-739 | the core message is "" exactly when no paragraph has ten words |
| Summary.CoreMessageFirst | websum.py:733-739 | the core message is that of the first paragraph of ten or more words |
| Summary.SafeTitle | websum.py:1107 | at most 50 characters, each the title's own when allowed and `_` otherwise |
| Summary.Project | websum.py:1100-1107 | the summary is the first 500 characters of the markdown, or all of it |
| Summary.ProjectionCounts | websum.py:1100-1107 | the word count of space-separated words is their number, and a title of allowed characters is only cut to 50 |
| Utils.CleanText | modules/utils.py:5-22 | `clean_text`; its contract is `CleanTextNormalized` |
| Utils.CleanTextNormalized | modules/utils.py:5-22 | single spaces between words, none at either end, no tab or newline |
| Utils.BulletRepairInert | modules/utils.py:16-20 | the bullet repair never fires: the repair before it has removed every `â€` |
| Utils.MarkdownLinkUnwrapped | modules/utils.py:8 | a markdown link is replaced by its label |
| Utils.IsNavigationText | modules/utils.py:24-31 | `is_navigation_text`; its contract is stated by `NavigationIgnoresCase`, `NavigationInContext`, `NavigationFromWords` and `ShortTextNotNavigation` |
| Utils.NavigationIgnoresCase | modules/utils.py:24-31 | the test ignores letter case |
| Utils.NavigationInContext | modules/utils.py:24-31 | a keyword is found as a substring, inside any surrounding text |
| Utils.NextIsNavigation | modules/utils.py:28 | "Next" is navigation |
| Utils.QuickStartIsNavigation | modules/utils.py:27 | "Quick Start" is navigation whatever whitespace separates the words |
| Utils.NavigationFromWords | modules/utils.py:24-31 | space-separated words none of which holds a keyword or `start` once lower-cased are not navigation |
| Utils.ShortTextNotNavigation | modules/utils.py:24-31 | text shorter than every keyword is never navigation |
| Utils.EnsureUrlScheme | modules/utils.py:33-37 | the result starts with `http://` or `https://`; such input is returned unchanged, other input becomes `https://` plus the input without leading slashes |
| Utils.EnsureUrlSchemeIdempotent | modules/utils.py:33-37 | completing a URL twice is completing it once |
| Utils.CleanMarkdown | modules/utils.py:39-58 | the result has no whitespace at either end |
| Utils.CleanMarkdownPlain | modules/utils.py:39-58 | markdown without backticks, asterisks or blank-line runs is only stripped |
| Utils.ProcessCode | modules/utils.py:60-64 | the fenced stripped code, tagged `python` exactly when `import`, `def`, `class` or `async` occurs in it |
| Utils.ProcessMarkdownContent | modules/utils.py:66-79 | `process_markdown_content`: nothing for empty text, else `clean_markdown` and the rewrite of fenced spans; its contract is `ProcessWithoutFences` |
| Utils.ProcessWithoutFences | modules/utils.py:66-79 | markdown whose cleaned form has no fence comes back cleaned and otherwise unchanged |
| Utils.CodeSpanRewritten | modules/utils.py:75-78 | the first fenced span becomes `process_code` of its body, the text before it is kept, and scanning goes on after it |
| Regex.BlankLinesCollapsed | modules/utils.py:45 | `\n{3,}` never leaves three newlines in a row |
| Regex.BlankLinesAbsent | websum.py:1404 | without three newlines in a row the pass changes nothing |
| Regex.CollapseRuns | modules/utils.py:12 | the result starts as the input does, a run character in it is the replacement, it holds only input characters and the replacement, and the replacement never occurs twice in a row |
| CompressKnowledge.CompressPage | scraped_data/browser-use/compress_knowledge.py:6-17 | anything but a dictionary comes back unchanged; a dictionary becomes one with the keys `t`, `c`, `k`, `u`, unless a field has a type the expression cannot handle |
| CompressKnowledge.CompressFields | scraped_data/browser-use/compress_knowledge.py:12-17 | `t` is the stripped title, `c` the prefix of at most 2000 characters of the content, `k` the first at most five keywords, `u` the last at most 50 characters of the URL |
| CompressKnowledge.CompressEmpty | scraped_data/browser-use/compress_knowledge.py:12-17 | absent fields give empty ones |
| CompressKnowledge.CompressRaises | scraped_data/browser-use/compress_knowledge.py:13-16 | a field of a type that cannot be stripped or sliced makes the call raise |
| CompressKnowledge.MergePages | scraped_data/browser-use/compress_knowledge.py:24-39 | `combined` holds the first page of each digest among the files handled, in listing order; no two share a digest; `seen_hashes` is exactly their digests, which are those of all pages handled |
| CompressKnowledge.HashText | scraped_data/browser-use/compress_knowledge.py:34 | `compressed['t'] + compressed['c']`, present only when the compressed page has both as strings |
| CompressKnowledge.Candidate | scraped_data/browser-use/compress_knowledge.py:24-34 | the page one file contributes, none when it is not `.json` or its handling raises; its contract is stated by `HandleFile` and `NotHandled` |
| CompressKnowledge.HandleFile | scraped_data/browser-use/compress_knowledge.py:25-34 | the compressed page, or nothing when the file is passed over or raises |
| CompressKnowledge.NotHandled | scraped_data/browser-use/compress_knowledge.py:25-43 | a name without `.json`, an unreadable file or a non-dictionary page is skipped |
| Dedup.CollectSkip | scraped_data/browser-use/compress_knowledge.py:40-43 | a file that is skipped or raises leaves the handling of the later files as if it were absent |
| Dedup.CollectFrom | scraped_data/browser-use/merge_json.py:43-59 | every item handled comes from a listed file |
| Dedup.FirstOfEachKeys | scraped_data/browser-use/compress_knowledge.py:36-39 | the kept items have the keys of all items |
| Dedup.FirstOfEachDistinct | scraped_data/browser-use/compress_knowledge.py:36-39 | no two kept items share a key |
| Dedup.FirstOfEachKeeps | scraped_data/browser-use/compress_knowledge.py:36-39 | the first item with a key is kept |
| Dedup.FirstOfEachFrom | scraped_data/browser-use/compress_knowledge.py:36-39 | every kept item is the first item with its key |
| Dedup.FirstOfEachPrefix | scraped_data/browser-use/compress_knowledge.py:36-39 | items kept from a prefix open those kept from the whole, so the kept items keep their order |
| MergeJson.CleanText | scraped_data/browser-use/merge_json.py:31-37 | no `#`, `-`, `*`, `>` or backtick, and no whitespace at either end |
| MergeJson.CleanTextPlain | scraped_data/browser-use/merge_json.py:31-37 | single-spaced text without brackets, URLs or markdown syntax comes back unchanged |
| MergeJson.ExtractInstructions | scraped_data/browser-use/merge_json.py:6-29 | the keys are among installation and usage, each present exactly when its search matched, holding its cleaned group |
| MergeJson.InstructionsClean | scraped_data/browser-use/merge_json.py:20-27 | no instruction holds markdown syntax or has whitespace at either end |
| MergeJson.ProcessDirectory | scraped_data/browser-use/merge_json.py:43-59 | the records kept are the first of each hash among the `.json` files with instructions, in listing order; no two share a hash; `seen_content` is exactly their hashes |
| MergeJson.Candidate | scraped_data/browser-use/merge_json.py:44-51 | the record one file contributes, none unless it is a `.json` file that loads and has instructions; its contract is stated by `HandleFile`, `RecordOrigin` and `NotHandled` |
| MergeJson.HandleFile | scraped_data/browser-use/merge_json.py:44-52 | the record of a `.json` file that loads and has instructions, naming the file |
| MergeJson.RecordOrigin | scraped_data/browser-use/merge_json.py:44-59 | every record holds the non-empty instructions of the `.json` file it names |
| MergeJson.NotHandled | scraped_data/browser-use/merge_json.py:44-52 | names without `.json`, files that fail to load and pages without instructions are skipped |

## Left out

- `crawl_page`, `extract_documentation`, the browser and crawler configuration, and `get_default_config`: they are calls into the crawling library. The fetch inside `safe_crawl` is a sequence of attempt outcomes.
- HTML parsing with BeautifulSoup, `extract_metadata` and the meta extraction of `save_to_knowledge_base`: their parsed values are inputs (the anchors' `href`s, the title).
- `urljoin` and `urlparse` (reference resolution by section 5.2 of RFC 3986): they are function parameters.
- `RateLimiter`: it depends on the wall clock and `asyncio.sleep`. Each `wait()` is an event in the crawl trace.
- File and environment I/O, `main`, `process_url` and every message logged or printed. `_load_cache` is the constructor's argument and `_save_cache` does nothing.
- `save_unified_knowledge`: it reads `current_header` before assigning it, and it is never awaited in `crawl_docs`, so condensed mode records the URL without saving. It appears only as a save that succeeds.
- `save_to_knowledge_base` beyond the projection of its title, word count and summary: it writes files. Each save it makes in `crawl_docs` is an input outcome, and a save that raises is caught and leaves the URL uncrawled.
- `extract_readable_text` and `extract_technical_terms`: both are regex passes, and their results are inputs of `Summary.CreateCondensedSummary`.
- The five line-break passes and the string-indentation pass of `format_code_block` (`websum.py` lines 98-105): together they are the `layout` parameter.
- The two lookahead searches of `extract_instructions` are a parameter giving their groups. MD5 and Python's `hash` of the JSON dump are parameters too.
- `modules/config.py` and `modules/__init__.py`: they hold no logic.
- Character classes are ASCII: `str.isalnum`, `str.lower`, `\w` and `\d` are not extended to Unicode letters and digits. Python's whitespace set is modelled in full.
- The order of `os.listdir` is the order of the given list. JSON numbers are integers.
- Cache.URLCache.GetStats: it does not model resetting a cache loaded as something other than a dictionary, because the model's cache is always a table.
- Cache.URLCache.Merge: it does not model another cache file whose entries are not dictionaries. A file that is not a JSON object counts as malformed.
- Crawl.CrawlDocs: the run also stops when the fetch outcomes run out; that fuel bound is not in the source, where the list can grow without end.
- Summary.CreateCondensedSummary: it takes the title as a string or as absent; a title that is present but is not a string, on which `strip` would raise, is not modelled.
