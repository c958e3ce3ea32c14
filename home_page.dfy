/**
 * The list logic of the `Home` component in src/app/page.tsx: the load
 * decision run once on mount, the title filter, the sort, and the field edit
 * wired to the two inputs of every displayed row.
 */
module HomePage {
  import opened Wrappers
  import opened Articles
  import opened Strings
  import NewsRoute

  // ---------------------------------------------------------------------------
  // Loading (page.tsx:20-47)
  // ---------------------------------------------------------------------------

  /** What `JSON.parse(saved)` does: throw, give an array, or give some other value. */
  datatype ParseResult = Malformed | JsonArray(items: seq<Article>) | JsonOther

  /** `localStorage.getItem("savedArticles")`: null, or the stored text and what it parses to. */
  datatype SavedEntry = NoEntry | Entry(text: string, parsed: ParseResult)

  /** The `articles` property of the API body: an array, or anything else (missing, falsy, not an array). */
  datatype ArticlesProperty = ArticleArray(items: seq<Article>) | NotAnArray

  /**
   * What `fetch("/api/news")` followed by `res.json()` produces: nothing (the
   * fetch rejected or the body is not JSON), `null` (reading `.articles`
   * throws), or a value whose `articles` property is looked at.
   */
  datatype ApiData = Unreadable | NullData | Data(articles: ArticlesProperty)

  /** `if (saved)`: neither null nor the empty string. */
  predicate SavedIsTruthy(saved: SavedEntry) {
    saved.Entry? && saved.text != ""
  }

  /** The saved value parses to a non-empty array. */
  predicate SavedWins(saved: SavedEntry) {
    SavedIsTruthy(saved) && saved.parsed.JsonArray? && |saved.parsed.items| > 0
  }

  /** Control reaches the fetch: nothing truthy is saved, or it parses to something other than a non-empty array. */
  predicate ReachesFetch(saved: SavedEntry) {
    !SavedIsTruthy(saved) || saved.parsed.JsonOther? || (saved.parsed.JsonArray? && saved.parsed.items == [])
  }

  /** The list `setArticles(data.articles)` is called with, if the check at line 34 passes. */
  function FetchedArticles(data: ApiData): Option<seq<Article>> {
    if data.Data? && data.articles.ArticleArray? then Some(data.articles.items) else None
  }

  /**
   * `loadArticles`, from the current list, the saved entry and what the API
   * call produces if it is made. Returns the list after the state setters ran,
   * whether the API was fetched, and the final `loading` flag.
   */
  method LoadArticles(articles: seq<Article>, saved: SavedEntry, data: ApiData)
    returns (loaded: seq<Article>, fetched: bool, loading: bool)
    ensures !loading
    ensures fetched <==> ReachesFetch(saved)
    ensures SavedWins(saved) ==> loaded == saved.parsed.items
    ensures fetched && FetchedArticles(data).Some? ==> loaded == FetchedArticles(data).value
    ensures !SavedWins(saved) && !(fetched && FetchedArticles(data).Some?) ==> loaded == articles
  {
    loaded, fetched := articles, false;
    if SavedIsTruthy(saved) {
      match saved.parsed {
        case Malformed =>
          // JSON.parse threw: the catch block logs it, `finally` clears loading.
          loading := false;
          return;
        case JsonArray(items) =>
          if |items| > 0 {
            loaded := items;
            loading := false;
            return;
          }
        case JsonOther =>
      }
    }
    fetched := true;
    match data {
      case Unreadable =>
      case NullData =>
      case Data(property) =>
        if property.ArticleArray? {
          loaded := property.items;
        }
    }
    loading := false;
  }

  /** A saved non-empty array and a fetch exclude each other; a saved value that fails to parse prevents both. */
  lemma LoadPrecedence(saved: SavedEntry)
    ensures SavedWins(saved) ==> !ReachesFetch(saved)
    ensures SavedIsTruthy(saved) && saved.parsed.Malformed? ==> !SavedWins(saved) && !ReachesFetch(saved)
    ensures !SavedIsTruthy(saved) ==> ReachesFetch(saved)
  {
  }

  /** What the page reads from a body the news route sends: neither an error object nor a bare array has an `articles` property. */
  function ClientData(response: NewsRoute.Response): ApiData {
    match response.body
    case ErrorBody(_) => Data(NotAnArray)
    case ArticleList(_) => Data(NotAnArray)
  }

  /**
   * No body the route sends has an `articles` key: its error answers are
   * `{ error }` objects and its success answer is the bare array. So the
   * page's `data.articles` check fails on every answer, whatever `Get`
   * computed.
   */
  lemma RouteAnswerIsNeverLoaded(apiKey: Option<string>, fetch: string -> NewsRoute.Upstream)
    ensures FetchedArticles(ClientData(NewsRoute.Get(apiKey, fetch).response)) == None
  {
  }

  // ---------------------------------------------------------------------------
  // Filtering (page.tsx:64-66)
  // ---------------------------------------------------------------------------

  /** `article.title.toLowerCase().includes(searchTerm.toLowerCase())` */
  predicate Matches(a: Article, searchTerm: string) {
    Includes(Lower(a.title), Lower(searchTerm))
  }

  /** `articles.filter(...)`: exactly the articles whose title matches. */
  function FilteredArticles(articles: seq<Article>, searchTerm: string): (r: seq<Article>)
    ensures |r| <= |articles|
    ensures forall a :: a in r <==> a in articles && Matches(a, searchTerm)
  {
    if articles == [] then []
    else
      var kept := if Matches(articles[0], searchTerm) then [articles[0]] else [];
      kept + FilteredArticles(articles[1..], searchTerm)
  }

  /** Filtering a concatenation filters each part and keeps them in order. */
  lemma {:induction false} FilterAppend(s1: seq<Article>, s2: seq<Article>, searchTerm: string)
    ensures FilteredArticles(s1 + s2, searchTerm) == FilteredArticles(s1, searchTerm) + FilteredArticles(s2, searchTerm)
  {
    if s1 == [] {
      assert s1 + s2 == s2;
    } else {
      assert (s1 + s2)[0] == s1[0];
      assert (s1 + s2)[1..] == s1[1..] + s2;
      FilterAppend(s1[1..], s2, searchTerm);
    }
  }

  /** An empty search term keeps every article, in place. */
  lemma {:induction false} EmptyTermKeepsAll(articles: seq<Article>)
    ensures FilteredArticles(articles, "") == articles
  {
    if articles != [] {
      EmptyIsIncluded(Lower(articles[0].title));
      EmptyTermKeepsAll(articles[1..]);
    }
  }

  /**
   * An article is kept exactly when the lower-cased term occurs in its
   * lower-cased title; the author is never looked at, so an article whose
   * author matches and whose title does not is dropped.
   */
  lemma KeptIffTitleContainsTerm(articles: seq<Article>, searchTerm: string, a: Article)
    requires a in articles
    ensures a in FilteredArticles(articles, searchTerm) <==> IsSubstring(Lower(searchTerm), Lower(a.title))
  {
    IncludesIsSubstring(Lower(a.title), Lower(searchTerm));
  }

  /** A title containing the term verbatim always matches. */
  lemma VerbatimTitleMatchIsKept(articles: seq<Article>, searchTerm: string, a: Article)
    requires a in articles
    requires IsSubstring(searchTerm, a.title)
    ensures a in FilteredArticles(articles, searchTerm)
  {
    var i :| OccursAt(a.title, searchTerm, i);
    LowerKeepsOccurrence(a.title, searchTerm, i);
    IncludesIsSubstring(Lower(a.title), Lower(searchTerm));
  }

  /** The case of the search term does not matter. */
  lemma {:induction false} FilterIgnoresTermCase(articles: seq<Article>, searchTerm: string)
    ensures FilteredArticles(articles, searchTerm) == FilteredArticles(articles, Lower(searchTerm))
  {
    LowerIsIdempotent(searchTerm);
    if articles != [] {
      FilterIgnoresTermCase(articles[1..], searchTerm);
    }
  }

  // ---------------------------------------------------------------------------
  // Sorting (page.tsx:68-83)
  // ---------------------------------------------------------------------------

  /**
   * The host functions the comparator calls: `new Date(s).getTime()` and
   * `String.prototype.localeCompare`.
   */
  datatype Host = Host(getTime: string -> int, localeCompare: (string, string) -> int)

  /** `localeCompare` behaves as a comparator: the sign flips with the arguments, and "not after" is transitive. */
  ghost predicate ConsistentCompare(compare: (string, string) -> int) {
    && (forall x, y :: compare(x, y) < 0 <==> compare(y, x) > 0)
    && (forall x, y, z :: compare(x, y) <= 0 && compare(y, z) <= 0 ==> compare(x, z) <= 0)
  }

  /** The source-name orderings rely on `localeCompare` being consistent; the date orderings need nothing. */
  ghost predicate ConsistentFor(sortOption: string, host: Host) {
    (sortOption == "source-az" || sortOption == "source-za") ==> ConsistentCompare(host.localeCompare)
  }

  /** The comparator passed to `sort`: negative puts `a` first. */
  function Compare(sortOption: string, host: Host, a: Article, b: Article): int {
    if sortOption == "newest" then host.getTime(b.publishedAt) - host.getTime(a.publishedAt)
    else if sortOption == "oldest" then host.getTime(a.publishedAt) - host.getTime(b.publishedAt)
    else if sortOption == "source-az" then host.localeCompare(a.source.name, b.source.name)
    else if sortOption == "source-za" then host.localeCompare(b.source.name, a.source.name)
    else 0
  }

  /** Along `s`, no article is placed after one the comparator would put behind it. */
  ghost predicate SortedBy(sortOption: string, host: Host, s: seq<Article>) {
    forall i, j :: 0 <= i < j < |s| ==> Compare(sortOption, host, s[i], s[j]) <= 0
  }

  /** Insert `x`, which came before every element of `sorted`, ahead of the first one it does not follow. */
  function Insert(sortOption: string, host: Host, x: Article, sorted: seq<Article>): (r: seq<Article>)
    ensures multiset(r) == multiset(sorted) + multiset{x}
  {
    if sorted == [] then [x]
    else if Compare(sortOption, host, x, sorted[0]) <= 0 then [x] + sorted
    else
      assert sorted == [sorted[0]] + sorted[1..];
      [sorted[0]] + Insert(sortOption, host, x, sorted[1..])
  }

  /** `[...filteredArticles].sort(compare)`: a stable sort of a copy. */
  function SortedArticles(sortOption: string, host: Host, filtered: seq<Article>): (r: seq<Article>)
    ensures multiset(r) == multiset(filtered)
    ensures |r| == |filtered|
  {
    if filtered == [] then []
    else
      assert filtered == [filtered[0]] + filtered[1..];
      Insert(sortOption, host, filtered[0], SortedArticles(sortOption, host, filtered[1..]))
  }

  lemma CompareFlips(sortOption: string, host: Host, a: Article, b: Article)
    requires ConsistentFor(sortOption, host)
    ensures Compare(sortOption, host, a, b) > 0 ==> Compare(sortOption, host, b, a) < 0
  {
  }

  lemma CompareTransitive(sortOption: string, host: Host, a: Article, b: Article, c: Article)
    requires ConsistentFor(sortOption, host)
    requires Compare(sortOption, host, a, b) <= 0 && Compare(sortOption, host, b, c) <= 0
    ensures Compare(sortOption, host, a, c) <= 0
  {
  }

  /** `h` may stand before every element of `s`. */
  ghost predicate Leads(sortOption: string, host: Host, h: Article, s: seq<Article>) {
    forall j :: 0 <= j < |s| ==> Compare(sortOption, host, h, s[j]) <= 0
  }

  /** An ordered list stays ordered when an article that may lead all of it is put in front. */
  lemma ConsKeepsSorted(sortOption: string, host: Host, h: Article, s: seq<Article>)
    requires SortedBy(sortOption, host, s)
    requires Leads(sortOption, host, h, s)
    ensures SortedBy(sortOption, host, [h] + s)
  {
    var r := [h] + s;
    forall i, j | 0 <= i < j < |r| ensures Compare(sortOption, host, r[i], r[j]) <= 0 {
      assert r[j] == s[j - 1];
      if i > 0 { assert r[i] == s[i - 1]; }
    }
  }

  /** Leading a list depends only on its elements, not on their order. */
  lemma LeadsSameElements(sortOption: string, host: Host, h: Article, s: seq<Article>, t: seq<Article>)
    requires multiset(s) == multiset(t)
    requires Leads(sortOption, host, h, t)
    ensures Leads(sortOption, host, h, s)
  {
    forall j | 0 <= j < |s| ensures Compare(sortOption, host, h, s[j]) <= 0 {
      assert s[j] in multiset(t);
      var k :| 0 <= k < |t| && t[k] == s[j];
    }
  }

  lemma {:induction false} InsertKeepsSorted(sortOption: string, host: Host, x: Article, sorted: seq<Article>)
    requires ConsistentFor(sortOption, host)
    requires SortedBy(sortOption, host, sorted)
    ensures SortedBy(sortOption, host, Insert(sortOption, host, x, sorted))
  {
    if sorted == [] {
    } else if Compare(sortOption, host, x, sorted[0]) <= 0 {
      forall j | 0 <= j < |sorted| ensures Compare(sortOption, host, x, sorted[j]) <= 0 {
        if j > 0 {
          CompareTransitive(sortOption, host, x, sorted[0], sorted[j]);
        }
      }
      ConsKeepsSorted(sortOption, host, x, sorted);
    } else {
      var head, tail := sorted[0], sorted[1..];
      assert SortedBy(sortOption, host, tail) by {
        forall i, j | 0 <= i < j < |tail| ensures Compare(sortOption, host, tail[i], tail[j]) <= 0 {
          assert tail[i] == sorted[i + 1] && tail[j] == sorted[j + 1];
        }
      }
      InsertKeepsSorted(sortOption, host, x, tail);
      var rest := Insert(sortOption, host, x, tail);
      CompareFlips(sortOption, host, x, head);
      assert Leads(sortOption, host, head, tail + [x]) by {
        forall j | 0 <= j < |tail + [x]| ensures Compare(sortOption, host, head, (tail + [x])[j]) <= 0 {
          if j < |tail| { assert (tail + [x])[j] == sorted[j + 1]; }
        }
      }
      LeadsSameElements(sortOption, host, head, rest, tail + [x]);
      ConsKeepsSorted(sortOption, host, head, rest);
    }
  }

  /** Whatever the option, the sort's output is ordered by its comparator. */
  lemma {:induction false} SortIsSorted(sortOption: string, host: Host, filtered: seq<Article>)
    requires ConsistentFor(sortOption, host)
    ensures SortedBy(sortOption, host, SortedArticles(sortOption, host, filtered))
  {
    if filtered != [] {
      SortIsSorted(sortOption, host, filtered[1..]);
      InsertKeepsSorted(sortOption, host, filtered[0], SortedArticles(sortOption, host, filtered[1..]));
    }
  }

  /** Stability's consequence: a list already in comparator order comes back as it was. */
  lemma {:induction false} SortKeepsSortedInput(sortOption: string, host: Host, s: seq<Article>)
    requires SortedBy(sortOption, host, s)
    ensures SortedArticles(sortOption, host, s) == s
  {
    if s != [] {
      var tail := s[1..];
      assert SortedBy(sortOption, host, tail) by {
        forall i, j | 0 <= i < j < |tail| ensures Compare(sortOption, host, tail[i], tail[j]) <= 0 {
          assert tail[i] == s[i + 1] && tail[j] == s[j + 1];
        }
      }
      SortKeepsSortedInput(sortOption, host, tail);
      if tail != [] {
        assert Compare(sortOption, host, s[0], tail[0]) <= 0 by { assert tail[0] == s[1]; }
      }
      assert [s[0]] + tail == s;
    }
  }

  /** `"newest"`: publication times never increase along the result. */
  lemma NewestFirst(host: Host, filtered: seq<Article>)
    ensures var r := SortedArticles("newest", host, filtered);
      forall i, j :: 0 <= i < j < |r| ==> host.getTime(r[i].publishedAt) >= host.getTime(r[j].publishedAt)
  {
    SortIsSorted("newest", host, filtered);
  }

  /** `"oldest"`: publication times never decrease along the result. */
  lemma OldestFirst(host: Host, filtered: seq<Article>)
    ensures var r := SortedArticles("oldest", host, filtered);
      forall i, j :: 0 <= i < j < |r| ==> host.getTime(r[i].publishedAt) <= host.getTime(r[j].publishedAt)
  {
    SortIsSorted("oldest", host, filtered);
  }

  /** `"source-az"`: source names ascend under `localeCompare`. */
  lemma SourceAscending(host: Host, filtered: seq<Article>)
    requires ConsistentCompare(host.localeCompare)
    ensures var r := SortedArticles("source-az", host, filtered);
      forall i, j :: 0 <= i < j < |r| ==> host.localeCompare(r[i].source.name, r[j].source.name) <= 0
  {
    SortIsSorted("source-az", host, filtered);
  }

  /** `"source-za"`: source names descend under `localeCompare`. */
  lemma SourceDescending(host: Host, filtered: seq<Article>)
    requires ConsistentCompare(host.localeCompare)
    ensures var r := SortedArticles("source-za", host, filtered);
      forall i, j :: 0 <= i < j < |r| ==> host.localeCompare(r[j].source.name, r[i].source.name) <= 0
  {
    SortIsSorted("source-za", host, filtered);
  }

  /** Any other option compares everything equal, so the filtered order is kept. */
  lemma OtherOptionKeepsOrder(sortOption: string, host: Host, filtered: seq<Article>)
    requires sortOption !in {"newest", "oldest", "source-az", "source-za"}
    ensures SortedArticles(sortOption, host, filtered) == filtered
  {
    SortKeepsSortedInput(sortOption, host, filtered);
  }

  /** The articles of `s` that the comparator ranks equal to `x`, in their order in `s`. */
  function TiedWith(sortOption: string, host: Host, s: seq<Article>, x: Article): seq<Article> {
    if s == [] then []
    else
      var here := if Compare(sortOption, host, s[0], x) == 0 then [s[0]] else [];
      here + TiedWith(sortOption, host, s[1..], x)
  }

  /** Putting `h` in front extends its own tie group at the front. */
  lemma TiedWithCons(sortOption: string, host: Host, h: Article, s: seq<Article>, x: Article)
    ensures TiedWith(sortOption, host, [h] + s, x)
      == (if Compare(sortOption, host, h, x) == 0 then [h] else []) + TiedWith(sortOption, host, s, x)
  {
    assert ([h] + s)[0] == h && ([h] + s)[1..] == s;
  }

  /** Two articles tied with the same `x` never compare as out of order. */
  lemma TiesDoNotCross(sortOption: string, host: Host, y: Article, z: Article, x: Article)
    requires ConsistentFor(sortOption, host)
    requires Compare(sortOption, host, y, x) == 0 && Compare(sortOption, host, z, x) == 0
    ensures Compare(sortOption, host, y, z) <= 0
  {
    CompareFlips(sortOption, host, x, z);
    CompareTransitive(sortOption, host, y, x, z);
  }

  /** Inserting `y` adds it to its tie group at the front and leaves every tie group otherwise as it was. */
  lemma {:induction false} InsertKeepsTies(sortOption: string, host: Host, y: Article, r: seq<Article>, x: Article)
    requires ConsistentFor(sortOption, host)
    ensures TiedWith(sortOption, host, Insert(sortOption, host, y, r), x)
      == (if Compare(sortOption, host, y, x) == 0 then [y] else []) + TiedWith(sortOption, host, r, x)
  {
    if r == [] {
    } else if Compare(sortOption, host, y, r[0]) <= 0 {
      TiedWithCons(sortOption, host, y, r, x);
    } else {
      var rest := Insert(sortOption, host, y, r[1..]);
      TiedWithCons(sortOption, host, r[0], rest, x);
      InsertKeepsTies(sortOption, host, y, r[1..], x);
      TiedWithCons(sortOption, host, r[0], r[1..], x);
      assert [r[0]] + r[1..] == r;
      if Compare(sortOption, host, y, x) == 0 && Compare(sortOption, host, r[0], x) == 0 {
        TiesDoNotCross(sortOption, host, y, r[0], x);
      }
    }
  }

  /**
   * Stability: articles the comparator ranks equal to one another come out
   * of the sort in the order they had in the filtered list.
   */
  lemma {:induction false} SortIsStable(sortOption: string, host: Host, filtered: seq<Article>, x: Article)
    requires ConsistentFor(sortOption, host)
    ensures TiedWith(sortOption, host, SortedArticles(sortOption, host, filtered), x)
      == TiedWith(sortOption, host, filtered, x)
  {
    if filtered != [] {
      SortIsStable(sortOption, host, filtered[1..], x);
      InsertKeepsTies(sortOption, host, filtered[0], SortedArticles(sortOption, host, filtered[1..]), x);
    }
  }

  // ---------------------------------------------------------------------------
  // The displayed list and editing (page.tsx:53-57, 155-178)
  // ---------------------------------------------------------------------------

  /** `sortedArticles`: what the page renders, row by row. */
  function Displayed(articles: seq<Article>, searchTerm: string, sortOption: string, host: Host): (r: seq<Article>)
    ensures multiset(r) == multiset(FilteredArticles(articles, searchTerm))
  {
    SortedArticles(sortOption, host, FilteredArticles(articles, searchTerm))
  }

  /** There are never more rows than articles, so every row position passed to `updateField` indexes the list. */
  lemma DisplayedNoLonger(articles: seq<Article>, searchTerm: string, sortOption: string, host: Host, row: nat)
    requires row < |Displayed(articles, searchTerm, sortOption, host)|
    ensures |Displayed(articles, searchTerm, sortOption, host)| <= |articles|
    ensures row < |articles|
  {
  }

  /**
   * `updateField(index, field, value)`: copy the array, overwrite one field
   * of the record at `index`, and hand the copy to `setArticles`. The row
   * handlers pass an index that is below the number of displayed rows, hence
   * below the number of articles.
   */
  method UpdateField(articles: seq<Article>, index: nat, field: Key, value: string) returns (updated: seq<Article>)
    requires index < |articles|
    ensures updated == ReplaceField(articles, index, field, value)
  {
    var copy := new Article[|articles|](i requires 0 <= i < |articles| => articles[i]);
    copy[index] := WithField(copy[index], field, value);
    updated := copy[..];
  }

  /**
   * When the term is empty and the list is already in the chosen option's
   * order, the rows are the backing list itself: row `i` is article `i`, so
   * an edit lands on the row that was typed into.
   */
  lemma UnmovedRowsEditThemselves(articles: seq<Article>, sortOption: string, host: Host)
    requires SortedBy(sortOption, host, articles)
    ensures Displayed(articles, "", sortOption, host) == articles
  {
    EmptyTermKeepsAll(articles);
    SortKeepsSortedInput(sortOption, host, articles);
  }

  /** The default option on newest-first data: rows and backing indices coincide. */
  lemma NewestFirstDataStaysInPlace(host: Host, a: Article, b: Article)
    requires host.getTime(a.publishedAt) >= host.getTime(b.publishedAt)
    ensures Displayed([a, b], "", "newest", host) == [a, b]
  {
    UnmovedRowsEditThemselves([a, b], "newest", host);
  }

  /**
   * The row index is a position in `sortedArticles` but is applied to the
   * unfiltered list: with two articles and a term matching only the second,
   * typing into row 0 edits the first article, which is not displayed.
   */
  lemma FilteredRowEditsHiddenArticle(host: Host, sortOption: string, alpha: Article, beta: Article)
    requires alpha.title == "alpha" && beta.title == "beta"
    ensures Displayed([alpha, beta], "be", sortOption, host) == [beta]
    ensures ReplaceField([alpha, beta], 0, Title, "x")[0].title == "x"
    ensures ReplaceField([alpha, beta], 0, Title, "x")[1] == beta
  {
    assert Lower("be") == "be";
    assert Lower("alpha") == "alpha";
    assert Lower("beta") == "beta";
    assert Includes("beta", "be");
    assert !Includes("alpha", "be") by {
      assert "alpha"[..2] == "al";
      assert "alpha"[1..] == "lpha" && "lpha"[..2] == "lp";
      assert "lpha"[1..] == "pha" && "pha"[..2] == "ph";
      assert "pha"[1..] == "ha" && "ha"[..2] == "ha";
      assert "ha"[1..] == "a";
    }
    assert FilteredArticles([alpha, beta], "be") == [beta] by {
      assert [alpha, beta][1..] == [beta];
    }
  }
}
