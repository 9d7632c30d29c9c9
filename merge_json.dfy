/**
 * `scraped_data/browser-use/merge_json.py`: the installation and usage
 * instructions found in each page of a directory, cleaned of markdown, and
 * kept once per distinct set of instructions.
 *
 * The two `re.search` calls of `extract_instructions` (lookahead patterns over
 * the JSON dump of a page) are a parameter giving their second groups; Python's
 * `hash` of the sorted JSON dump of the instructions is a parameter; the
 * directory listing and file contents are inputs as in `CompressKnowledge`.
 */
module MergeJson {
  import opened Wrappers
  import opened Strings
  import opened Regex
  import opened Json
  import opened Dedup
  import Utils

  // ---------------------------------------------------------------------------
  // clean_text
  // ---------------------------------------------------------------------------

  /** The number of leading characters before the first newline. */
  function LineLen(t: string): (k: nat)
    ensures k <= |t|
    ensures forall i :: 0 <= i < k ==> t[i] != '\n'
    ensures k < |t| ==> t[k] == '\n'
    decreases |t|
  {
    if t == [] || t[0] == '\n' then 0 else 1 + LineLen(t[1..])
  }

  /**
   * `\[.*?\]\(.*?\)` replaced by "": `.` stops at a newline, so a match lies within
   * one line. The label runs to the first `](` of the line and the target to the
   * first `)` after it; when no `)` follows that `](` on the line, none follows a
   * later one either, so the lazy label cannot be extended to success.
   */
  function LinkAt(t: string): Option<Match> {
    if t == [] || t[0] != '[' then None
    else
      var line := t[..LineLen(t)];
      match FindFirst(line[1..], "](")
      case None => None
      case Some(k) =>
        match FindFirst(line[k + 3..], ")")
        case None => None
        case Some(m) => Some(Match(k + m + 4, ""))
  }

  /** `http\S+` replaced by "": "http" and the whole run of non-whitespace after it, at
      least one character. */
  function UrlAt(t: string): Option<Match> {
    if StartsWith(t, "http") && |t| > 4 && !IsSpace(t[4]) then Some(Match(4 + WordLen(t[4..]), ""))
    else None
  }

  /** The class `[#\-*>`]` of markdown syntax. */
  predicate IsMarkup(c: char) {
    c == '#' || c == '-' || c == '*' || c == '>' || c == '`'
  }

  predicate NotMarkup(c: char) { !IsMarkup(c) }

  /** No markdown syntax character. */
  predicate MarkupFree(t: string) {
    forall i :: 0 <= i < |t| ==> !IsMarkup(t[i])
  }

  /** No whitespace at either end. */
  predicate Trimmed(t: string) {
    t == [] || (!IsSpace(t[0]) && !IsSpace(t[|t| - 1]))
  }

  /** `clean_text(text)`: whitespace runs become one space, markdown links, URLs and
      markdown syntax characters go, and the ends are stripped. What is left holds no
      markdown syntax character and has no whitespace at either end. */
  function CleanText(text: string): (r: string)
    ensures MarkupFree(r) && Trimmed(r)
  {
    var spaced := CollapseRuns(text, IsSpace, ' ');
    var unlinked := Sub(spaced, LinkAt);
    var bare := Sub(unlinked, UrlAt);
    var plain := Filter(bare, NotMarkup);
    StripKeepsMarkupFree(plain);
    Strip(plain)
  }

  lemma StripKeepsMarkupFree(plain: string)
    requires forall i :: 0 <= i < |plain| ==> NotMarkup(plain[i])
    ensures MarkupFree(Strip(plain))
  {
    StripSlice(plain);
    var lead := |plain| - |LStrip(plain)|;
    var r := Strip(plain);
    forall i | 0 <= i < |r| ensures !IsMarkup(r[i]) {
      assert r[i] == plain[lead + i];
    }
  }

  /** Text that is already clean (single spaces, none at the ends, no `[`, no "http", no
      markdown syntax) comes back unchanged. */
  lemma CleanTextPlain(text: string)
    requires Utils.Normalized(text)
    requires forall i :: 0 <= i < |text| ==> text[i] != '[' && !IsMarkup(text[i])
    requires !Contains(text, "http")
    ensures CleanText(text) == text
  {
    CollapseRunsSingle(text, IsSpace, ' ');
    forall i | 0 <= i < |text| ensures !Hit(LinkAt, text[i..]) && !Hit(UrlAt, text[i..]) {
      assert text[i..][0] == text[i];
    }
    SubNoHit(text, LinkAt);
    SubNoHit(text, UrlAt);
    FilterAll(text, NotMarkup);
    StripNoop(text);
  }

  // ---------------------------------------------------------------------------
  // extract_instructions
  // ---------------------------------------------------------------------------

  /** The text of the second group of the installation search and of the usage search,
      when they match. */
  datatype Found = Found(installation: Option<string>, usage: Option<string>)

  /** `extract_instructions(content)`, `found` being what its two searches find: an entry
      per search that matched, holding its group cleaned. */
  function ExtractInstructions(found: Found): (r: map<string, string>)
    ensures r.Keys <= {"installation", "usage"}
    ensures "installation" in r <==> found.installation.Some?
    ensures "usage" in r <==> found.usage.Some?
    ensures "installation" in r ==> r["installation"] == CleanText(found.installation.value)
    ensures "usage" in r ==> r["usage"] == CleanText(found.usage.value)
  {
    var m := if found.installation.Some? then map["installation" := CleanText(found.installation.value)] else map[];
    if found.usage.Some? then m["usage" := CleanText(found.usage.value)] else m
  }

  /** No instruction holds markdown syntax or starts or ends with whitespace. */
  lemma InstructionsClean(found: Found)
    ensures forall name :: name in ExtractInstructions(found) ==>
      MarkupFree(ExtractInstructions(found)[name]) && Trimmed(ExtractInstructions(found)[name])
  {
    var r := ExtractInstructions(found);
    forall name | name in r ensures MarkupFree(r[name]) && Trimmed(r[name]) {
      if name == "installation" {
        assert r[name] == CleanText(found.installation.value);
      } else {
        assert name == "usage";
        assert r[name] == CleanText(found.usage.value);
      }
    }
  }

  // ---------------------------------------------------------------------------
  // process_directory
  // ---------------------------------------------------------------------------

  /** One record of `training_data`. */
  datatype Record = Record(source: string, instructions: map<string, string>)

  /** The record a file contributes to the de-duplication: none unless it is a `.json`
      file that loads and has instructions. */
  function Candidate(f: File, search: Json -> Found): Option<Record> {
    if !EndsWith(f.name, ".json") || f.page.None? then None
    else
      var instructions := ExtractInstructions(search(f.page.value));
      if instructions == map[] then None else Some(Record(f.name, instructions))
  }

  /** `Candidate` for one `search`; `Collect(files, CandidateOf(search))` are the records of
      the files with instructions, in listing order. */
  function CandidateOf(search: Json -> Found): File -> Option<Record> {
    f => Candidate(f, search)
  }

  /** Python's `hash` of the instructions' sorted JSON dump. */
  function RecordKey(hash: map<string, string> -> int): Record -> int {
    (r: Record) => hash(r.instructions)
  }

  /** The loop of `process_directory(input_dir)`, `search` giving the two searches of
      `extract_instructions` and `hash` the hash of the dump: it returns `training_data`
      and `seen_content`. The kept records are the first of each hash among the `.json`
      files with instructions, in listing order; no two share a hash; and `seen_content`
      holds exactly their hashes, which are those of all files with instructions. */
  method ProcessDirectory(files: seq<File>, search: Json -> Found, hash: map<string, string> -> int)
    returns (data: seq<Record>, seen: set<int>)
    ensures data == FirstOfEach(Collect(files, CandidateOf(search)), RecordKey(hash))
    ensures DistinctKeys(data, RecordKey(hash))
    ensures seen == KeysOf(data, RecordKey(hash)) == KeysOf(Collect(files, CandidateOf(search)), RecordKey(hash))
  {
    var key := RecordKey(hash);
    var cand := CandidateOf(search);
    data := [];
    seen := {};
    for i := 0 to |files|
      invariant data == FirstOfEach(Collect(files[..i], cand), key)
      invariant seen == KeysOf(Collect(files[..i], cand), key)
    {
      CollectNext(files, cand, i);
      var handled := HandleFile(files[i], search);
      if handled.Some? {
        var record := handled.value;
        var h := hash(record.instructions);
        assert Collect(files[..i + 1], cand) == Collect(files[..i], cand) + [record];
        FirstOfEachSnoc(Collect(files[..i], cand), record, key);
        if h !in seen {
          seen := seen + {h};
          data := data + [record];
        }
      } else {
        assert Collect(files[..i], cand) + [] == Collect(files[..i], cand);
      }
    }
    assert files[..|files|] == files;
    FirstOfEachKeys(Collect(files, cand), key);
    FirstOfEachDistinct(Collect(files, cand), key);
  }

  /** The body of the loop of `process_directory` up to the hash: the record of a `.json`
      file that loads and has instructions, naming the file. */
  method HandleFile(f: File, search: Json -> Found) returns (record: Option<Record>)
    ensures record == CandidateOf(search)(f)
  {
    record := None;
    if EndsWith(f.name, ".json") && f.page.Some? {
      var instructions := ExtractInstructions(search(f.page.value));
      if instructions != map[] {
        record := Some(Record(f.name, instructions));
      }
    }
  }

  /** Every record, kept or not, holds the non-empty instructions of the `.json` file it
      names. */
  lemma RecordOrigin(files: seq<File>, search: Json -> Found, x: Record)
    requires x in Collect(files, CandidateOf(search))
    ensures x.instructions != map[] && x.instructions.Keys <= {"installation", "usage"}
    ensures EndsWith(x.source, ".json")
    ensures exists j :: 0 <= j < |files| && files[j].name == x.source && Candidate(files[j], search) == Some(x)
  {
    CollectFrom(files, CandidateOf(search), x);
  }

  /** Names without the `.json` suffix, files that fail to load and pages without
      instructions are skipped. */
  lemma NotHandled(f: File, search: Json -> Found)
    requires !EndsWith(f.name, ".json") || f.page.None? || ExtractInstructions(search(f.page.value)) == map[]
    ensures CandidateOf(search)(f).None?
  {
  }
}
