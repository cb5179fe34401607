/** The corpus builder `data_generator.py`: for each dish of the menu, pick
    the first DienMayXanh link among the search results, take the page text,
    let the language model extract a JSON recipe, and append it to the JSON
    list file unless a recipe with the same id is already there. Search,
    download, the language model and `json.loads` are parameters. */
module CorpusBuilder {
  import opened Wrappers
  import opened Text
  import opened Json

  /* ---------------- save_append ---------------- */

  /** The JSON list file: missing, present but unreadable (a read or parse
      error, after which the script starts over from an empty list), or a
      list of records. An empty file reads as the empty list. */
  datatype FileState = Absent | Unreadable | Stored(items: seq<Dict>)

  /** The list `save_append` starts from. */
  function Loaded(f: FileState): seq<Dict>
  {
    if f.Stored? then f.items else []
  }

  /** `item.get('id')`: an absent id and a null id are both `None`. */
  function IdOf(d: Dict): Value
  {
    Get(d, "id", Null)
  }

  /** `any(item.get('id') == id for item in items)` */
  predicate HasId(items: seq<Dict>, id: Value)
  {
    exists k :: 0 <= k < |items| && IdOf(items[k]) == id
  }

  /** The file after `save_append(data)`: the record is appended (and the
      list written back) exactly when no loaded record has the same id;
      otherwise nothing is written. */
  function Appended(f: FileState, data: Dict): (g: FileState)
    ensures g == f || g == Stored(Loaded(f) + [data])
    ensures g == Stored(Loaded(f) + [data]) <==> !HasId(Loaded(f), IdOf(data))
  {
    if HasId(Loaded(f), IdOf(data)) then f else Stored(Loaded(f) + [data])
  }

  /** The loaded records are kept, in order, and at most one is added. */
  lemma AppendedKeepsRecords(f: FileState, data: Dict)
    ensures var items := Loaded(Appended(f, data));
            Loaded(f) <= items && |items| <= |Loaded(f)| + 1
  {
  }

  /** Saving the same record twice is saving it once. */
  lemma AppendedIdempotent(f: FileState, data: Dict)
    ensures Appended(Appended(f, data), data) == Appended(f, data)
  {
    var g := Appended(f, data);
    if g != f {
      assert Loaded(g)[|Loaded(g)| - 1] == data;
    }
  }

  /** After a save, a record with the saved id is in the file. */
  lemma AppendedHasId(f: FileState, data: Dict)
    ensures HasId(Loaded(Appended(f, data)), IdOf(data))
  {
    var g := Appended(f, data);
    if g != f {
      assert Loaded(g)[|Loaded(g)| - 1] == data;
    }
  }

  /** An unreadable file is replaced by a list holding only the new record. */
  lemma AppendedOverwritesUnreadable(data: Dict)
    ensures Appended(Unreadable, data) == Stored([data])
  {
  }

  /** No two records of the list share an id. */
  predicate DistinctIds(items: seq<Dict>)
  {
    forall i, j :: 0 <= i < j < |items| ==> IdOf(items[i]) != IdOf(items[j])
  }

  /** The dedupe keeps the ids of the file distinct. */
  lemma AppendedKeepsIdsDistinct(f: FileState, data: Dict)
    requires DistinctIds(Loaded(f))
    ensures DistinctIds(Loaded(Appended(f, data)))
  {
  }

  /** The generator expression of `save_append`, scanned until the first
      equal id. */
  method ContainsId(items: seq<Dict>, id: Value) returns (found: bool)
    ensures found <==> HasId(items, id)
  {
    var i := 0;
    while i < |items|
      invariant 0 <= i <= |items|
      invariant forall k :: 0 <= k < i ==> IdOf(items[k]) != id
    {
      if IdOf(items[i]) == id {
        return true;
      }
      i := i + 1;
    }
    return false;
  }

  /** The file `DB_FILE`, read and rewritten by `save_append`. */
  class RecipeFile {
    var contents: FileState

    constructor (contents0: FileState)
      ensures contents == contents0
    {
      contents := contents0;
    }

    /** `save_append(data)` */
    method SaveAppend(data: Dict)
      modifies this
      ensures contents == Appended(old(contents), data)
    {
      var current: seq<Dict> := [];
      if contents.Stored? {
        current := contents.items;
      }
      var seen := ContainsId(current, IdOf(data));
      if !seen {
        current := current + [data];
        contents := Stored(current);
      }
    }
  }

  /* ---------------- find_dmx_link ---------------- */

  /** A search result: a dictionary of strings. */
  type SearchResult = map<string, string>

  const DmxSite := "dienmayxanh.com"

  /** The search query for a dish. */
  function SearchQuery(dish: string): string
  {
    "cách làm " + dish + " site:dienmayxanh.com"
  }

  /** `r.get("href", "")` */
  function Href(r: SearchResult): string
  {
    if "href" in r then r["href"] else ""
  }

  predicate IsDmx(r: SearchResult)
  {
    Contains(Href(r), DmxSite)
  }

  /** The position of the first result whose link contains the site name,
      if any. */
  function FirstDmx(results: seq<SearchResult>): (r: Option<nat>)
    ensures r.None? <==> forall i :: 0 <= i < |results| ==> !IsDmx(results[i])
    ensures r.Some? ==> r.value < |results| && IsDmx(results[r.value])
                        && forall j :: 0 <= j < r.value ==> !IsDmx(results[j])
    decreases |results|
  {
    if results == [] then None
    else if IsDmx(results[0]) then Some(0)
    else
      var rest := FirstDmx(results[1..]);
      assert forall j :: 1 <= j < |results| ==> results[j] == results[1..][j - 1];
      if rest.None? then None else Some(rest.value + 1)
  }

  /** The link `find_dmx_link` settles on. */
  function FirstDmxLink(results: seq<SearchResult>): (link: Option<string>)
    ensures link.Some? ==> Contains(link.value, DmxSite)
  {
    match FirstDmx(results)
    case None => None
    case Some(i) => Some(Href(results[i]))
  }

  /** A returned link is never empty, so `if not url` in `main` only skips
      the dishes for which no link was found. */
  lemma DmxLinkNonEmpty(results: seq<SearchResult>)
    requires FirstDmxLink(results).Some?
    ensures FirstDmxLink(results).value != ""
  {
    var link := FirstDmxLink(results).value;
    var p :| 0 <= p <= |link| - |DmxSite| && OccursAt(link, DmxSite, p);
  }

  /** `find_dmx_link(dish)`: `search` is the DuckDuckGo call, `None` when it
      raises (the exception is caught and the dish gets no link). */
  method FindDmxLink(search: string -> Option<seq<SearchResult>>, dish: string) returns (link: Option<string>)
    ensures var results := search(SearchQuery(dish));
            link == if results.None? then None else FirstDmxLink(results.value)
  {
    var results := search(SearchQuery(dish));
    if results.None? {
      return None;
    }
    var rs := results.value;
    var i := 0;
    while i < |rs|
      invariant 0 <= i <= |rs|
      invariant forall j :: 0 <= j < i ==> !IsDmx(rs[j])
    {
      if Contains(Href(rs[i]), DmxSite) {
        return Some(Href(rs[i]));
      }
      i := i + 1;
    }
    return None;
  }

  /* ---------------- get_html_special ---------------- */

  const MinCommentText := 200
  const MaxPageText := 30000

  /** A downloaded page, reduced to what the script reads from it: the text
      of the block around the `region Web page` comment (empty when there is
      none) and the text of the article or, failing that, of the body (`None`
      when the page has neither, where `soup.body.get_text` raises). */
  datatype Page = Page(commentText: string, fallbackText: Option<string>)

  /** The text `get_html_special` keeps before truncation: the comment block
      when it has at least 200 characters, the article or body otherwise. */
  function ChosenText(p: Page): Option<string>
  {
    if |p.commentText| >= MinCommentText then Some(p.commentText) else p.fallbackText
  }

  /** `get_html_special(url)` for the page `fetched` (`None` when the download
      raises): at most 30000 characters, a prefix of the chosen text, and the
      whole of it when it is short enough. */
  function PageText(fetched: Option<Page>): (r: Option<string>)
    ensures r.Some? <==> fetched.Some? && ChosenText(fetched.value).Some?
    ensures r.Some? ==> |r.value| <= MaxPageText && r.value <= ChosenText(fetched.value).value
    ensures r.Some? && |ChosenText(fetched.value).value| <= MaxPageText ==> r.value == ChosenText(fetched.value).value
    ensures r.Some? && |ChosenText(fetched.value).value| > MaxPageText ==> |r.value| == MaxPageText
  {
    if fetched.None? then None
    else
      match ChosenText(fetched.value)
      case None => None
      case Some(t) => Some(if |t| <= MaxPageText then t else t[..MaxPageText])
  }

  /** A comment block shorter than 200 characters is never used, however the
      fallback turns out. */
  lemma ShortCommentFallsBack(p: Page)
    requires |p.commentText| < MinCommentText
    ensures PageText(Some(p)).Some? <==> p.fallbackText.Some?
    ensures p.fallbackText.Some? ==> PageText(Some(p)).value <= p.fallbackText.value
  {
  }

  /* ---------------- process_to_json ---------------- */

  /** The index of the first occurrence of `c`. */
  function FirstIndex(s: string, c: char): (r: Option<nat>)
    ensures r.None? <==> c !in s
    ensures r.Some? ==> r.value < |s| && s[r.value] == c && c !in s[..r.value]
    decreases |s|
  {
    if s == [] then None
    else if s[0] == c then Some(0)
    else
      var rest := FirstIndex(s[1..], c);
      assert s == [s[0]] + s[1..];
      if rest.None? then None
      else
        assert s[..rest.value + 1] == [s[0]] + s[1..][..rest.value];
        Some(rest.value + 1)
  }

  /** The index of the last occurrence of `c`. */
  function LastIndex(s: string, c: char): (r: Option<nat>)
    ensures r.None? <==> c !in s
    ensures r.Some? ==> r.value < |s| && s[r.value] == c && c !in s[r.value + 1..]
    decreases |s|
  {
    if s == [] then None
    else if s[|s| - 1] == c then Some(|s| - 1)
    else
      var rest := LastIndex(s[..|s| - 1], c);
      assert s == s[..|s| - 1] + [s[|s| - 1]];
      if rest.None? then None
      else
        assert s[rest.value + 1..] == s[..|s| - 1][rest.value + 1..] + [s[|s| - 1]];
        rest
  }

  /** The text handed to `json.loads`: the greedy match of `\{.*\}` (from the
      first `{` to the last `}`, which `re.search` finds exactly when some `}`
      follows the first `{`), otherwise the text with the Markdown code
      fences removed. */
  function JsonCandidate(text: string): (r: string)
    ensures FirstIndex(text, '{').Some? && LastIndex(text, '}').Some?
            && FirstIndex(text, '{').value < LastIndex(text, '}').value ==>
              && |r| >= 2 && r[0] == '{' && r[|r| - 1] == '}'
              && exists i :: OccursAt(text, r, i) && '{' !in text[..i] && '}' !in text[i + |r|..]
  {
    var first := FirstIndex(text, '{');
    var last := LastIndex(text, '}');
    if first.Some? && last.Some? && first.value < last.value then
      var r := text[first.value..last.value + 1];
      assert OccursAt(text, r, first.value);
      r
    else
      ReplaceAll(ReplaceAll(text, "```json", ""), "```", "")
  }

  /** `FirstIndex` finds the occurrence with none before it. */
  lemma FirstIndexAt(s: string, c: char, i: nat)
    requires i < |s| && s[i] == c && c !in s[..i]
    ensures FirstIndex(s, c) == Some(i)
  {
    var f := FirstIndex(s, c);
    assert forall j :: 0 <= j < i ==> s[j] != c by {
      assert forall j :: 0 <= j < i ==> s[j] == s[..i][j];
    }
    assert forall j :: 0 <= j < f.value ==> s[j] != c by {
      assert forall j :: 0 <= j < f.value ==> s[j] == s[..f.value][j];
    }
  }

  /** `LastIndex` finds the occurrence with none after it. */
  lemma LastIndexAt(s: string, c: char, i: nat)
    requires i < |s| && s[i] == c && c !in s[i + 1..]
    ensures LastIndex(s, c) == Some(i)
  {
    var l := LastIndex(s, c);
    assert forall j :: i < j < |s| ==> s[j] != c by {
      assert forall j :: i < j < |s| ==> s[j] == s[i + 1..][j - i - 1];
    }
    assert forall j :: l.value < j < |s| ==> s[j] != c by {
      assert forall j :: l.value < j < |s| ==> s[j] == s[l.value + 1..][j - l.value - 1];
    }
  }

  /** With a first `{` before a last `}`, the candidate is the text between. */
  lemma JsonCandidateBetween(text: string, i: nat, j: nat)
    requires i < j < |text| && text[i] == '{' && text[j] == '}'
    requires '{' !in text[..i] && '}' !in text[j + 1..]
    ensures JsonCandidate(text) == text[i..j + 1]
  {
    FirstIndexAt(text, '{', i);
    LastIndexAt(text, '}', j);
  }

  /** Text before the first brace and after the last one is ignored. */
  lemma JsonCandidateIgnoresChatter(prose: string, body: string, tail: string)
    requires '{' !in prose && '}' !in tail
    requires '{' !in body
    ensures JsonCandidate(prose + "{" + body + "}" + tail) == "{" + body + "}"
  {
    var inner := "{" + body + "}";
    var t := prose + inner + tail;
    assert prose + "{" + body + "}" + tail == t;
    var e := |prose| + |inner| - 1;
    assert t[..|prose|] == prose;
    assert t[e + 1..] == tail;
    assert t[|prose|..e + 1] == inner;
    JsonCandidateBetween(t, |prose|, e);
  }

  /** A reply without braces only loses its code fences. */
  lemma JsonCandidateWithoutBraces(text: string)
    requires '{' !in text
    ensures JsonCandidate(text) == ReplaceAll(ReplaceAll(text, "```json", ""), "```", "")
  {
  }

  /** `process_to_json`: `reply` is the model's answer (`None` when the call
      raises) and `parse` is `json.loads` (`None` when it raises). */
  function ProcessToJson(reply: Option<string>, parse: string -> Option<Dict>): (r: Option<Dict>)
    ensures reply.None? ==> r.None?
    ensures reply.Some? ==> r == parse(JsonCandidate(Strip(reply.value)))
  {
    if reply.None? then None else parse(JsonCandidate(Strip(reply.value)))
  }

  /* ---------------- main ---------------- */

  /** `json_data and json_data.get("ten_mon")`: a record is saved only when it
      was parsed, is not empty and has a non-empty name. */
  predicate ShouldSave(data: Option<Dict>)
  {
    data.Some? && data.value != map[] && Truthy(Get(data.value, "ten_mon", Null))
  }

  /** The emptiness test is implied by the name test. */
  lemma ShouldSaveIsNameTest(data: Option<Dict>)
    ensures ShouldSave(data) <==> data.Some? && "ten_mon" in data.value && Truthy(data.value["ten_mon"])
  {
  }

  /** The outside world of one crawl: the search engine, the page download,
      the language model (given the page text and the dish) and the JSON
      parser. */
  datatype World = World(
    search: string -> Option<seq<SearchResult>>,
    fetch: string -> Option<Page>,
    generate: (string, string) -> Option<string>,
    parse: string -> Option<Dict>)

  /** What one dish yields: nothing when no link, no page or empty page text
      is found, otherwise the extracted record. */
  function Harvest(w: World, dish: string): Option<Dict>
  {
    var results := w.search(SearchQuery(dish));
    var link := if results.None? then None else FirstDmxLink(results.value);
    if link.None? || link.value == "" then None
    else
      var text := PageText(w.fetch(link.value));
      if text.None? || text.value == "" then None
      else ProcessToJson(w.generate(text.value, dish), w.parse)
  }

  /** The file after crawling the dishes of `menu` in order. */
  function Crawled(f: FileState, w: World, menu: seq<string>): FileState
    decreases |menu|
  {
    if menu == [] then f
    else
      var g := Crawled(f, w, menu[..|menu| - 1]);
      var data := Harvest(w, menu[|menu| - 1]);
      if ShouldSave(data) then Appended(g, data.value) else g
  }

  /** A crawl never drops or reorders a record it loaded. */
  lemma {:induction false} CrawledKeepsRecords(f: FileState, w: World, menu: seq<string>)
    ensures Loaded(f) <= Loaded(Crawled(f, w, menu))
    decreases |menu|
  {
    if menu != [] {
      var g := Crawled(f, w, menu[..|menu| - 1]);
      CrawledKeepsRecords(f, w, menu[..|menu| - 1]);
      var data := Harvest(w, menu[|menu| - 1]);
      if ShouldSave(data) {
        AppendedKeepsRecords(g, data.value);
      }
    }
  }

  /** A crawl keeps the ids of a duplicate-free file distinct. */
  lemma {:induction false} CrawledKeepsIdsDistinct(f: FileState, w: World, menu: seq<string>)
    requires DistinctIds(Loaded(f))
    ensures DistinctIds(Loaded(Crawled(f, w, menu)))
    decreases |menu|
  {
    if menu != [] {
      var g := Crawled(f, w, menu[..|menu| - 1]);
      CrawledKeepsIdsDistinct(f, w, menu[..|menu| - 1]);
      var data := Harvest(w, menu[|menu| - 1]);
      if ShouldSave(data) {
        AppendedKeepsIdsDistinct(g, data.value);
      }
    }
  }

  /** Every record a crawl adds passed the save guard. */
  lemma {:induction false} CrawledAddsOnlyNamedRecords(f: FileState, w: World, menu: seq<string>)
    ensures var items := Loaded(Crawled(f, w, menu));
            forall k :: |Loaded(f)| <= k < |items| ==> Truthy(Get(items[k], "ten_mon", Null))
    decreases |menu|
  {
    if menu != [] {
      var g := Crawled(f, w, menu[..|menu| - 1]);
      CrawledAddsOnlyNamedRecords(f, w, menu[..|menu| - 1]);
      CrawledKeepsRecords(f, w, menu[..|menu| - 1]);
      var data := Harvest(w, menu[|menu| - 1]);
      if ShouldSave(data) {
        AppendedNamed(g, data, |Loaded(f)|);
      }
    }
  }

  /** Saving a record that passed the guard keeps every record from `lo` on
      named. */
  lemma AppendedNamed(g: FileState, data: Option<Dict>, lo: nat)
    requires ShouldSave(data) && lo <= |Loaded(g)|
    requires forall k :: lo <= k < |Loaded(g)| ==> Truthy(Get(Loaded(g)[k], "ten_mon", Null))
    ensures var items := Loaded(Appended(g, data.value));
            forall k :: lo <= k < |items| ==> Truthy(Get(items[k], "ten_mon", Null))
  {
    var items := Loaded(Appended(g, data.value));
    forall k | lo <= k < |items| ensures Truthy(Get(items[k], "ten_mon", Null)) {
      if k < |Loaded(g)| {
        assert items[k] == Loaded(g)[k];
      } else {
        assert items[k] == data.value;
      }
    }
  }

  /** One turn of the loop in `main()`: the record extracted for `dish`, if
      any. */
  method HarvestDish(w: World, dish: string) returns (data: Option<Dict>)
    ensures data == Harvest(w, dish)
  {
    var url := FindDmxLink(w.search, dish);
    if url.None? || url.value == "" {
      return None;
    }
    var html := PageText(w.fetch(url.value));
    if html.None? || html.value == "" {
      return None;
    }
    data := ProcessToJson(w.generate(html.value, dish), w.parse);
  }

  lemma CrawledStep(f: FileState, w: World, menu: seq<string>, i: nat)
    requires i < |menu|
    ensures var data := Harvest(w, menu[i]);
            var g := Crawled(f, w, menu[..i]);
            Crawled(f, w, menu[..i + 1]) == if ShouldSave(data) then Appended(g, data.value) else g
  {
    assert menu[..i + 1][..i] == menu[..i];
  }

  /** The save guard of `main()`. */
  method SaveIfNamed(file: RecipeFile, data: Option<Dict>)
    modifies file
    ensures file.contents == if ShouldSave(data) then Appended(old(file.contents), data.value) else old(file.contents)
  {
    if data.Some? && data.value != map[] && Truthy(Get(data.value, "ten_mon", Null)) {
      file.SaveAppend(data.value);
    }
  }

  /** `main()` over `menu`, writing into `file`. */
  method Crawl(file: RecipeFile, w: World, menu: seq<string>)
    modifies file
    ensures file.contents == Crawled(old(file.contents), w, menu)
  {
    ghost var start := file.contents;
    var i := 0;
    while i < |menu|
      invariant 0 <= i <= |menu|
      invariant file.contents == Crawled(start, w, menu[..i])
    {
      var data := HarvestDish(w, menu[i]);
      SaveIfNamed(file, data);
      CrawledStep(start, w, menu, i);
      i := i + 1;
    }
    assert menu[..|menu|] == menu;
  }
}
