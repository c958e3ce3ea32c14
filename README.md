# news-list: a Dafny model of the article list

The repository is a Next.js news reader. A server route fetches technology
headlines from NewsAPI and trims each record to six fields. The `Home` page
loads a list (from browser storage or from an API), filters it by title,
sorts it, and lets the user edit each row's title and author. A Redux slice
holds a list of articles with two reducers. This project models those three
pieces and proves what each of them promises.

- `wrappers.dfy`, module `Wrappers`: `Option`, standing for `undefined`/`null`.
- `articles.dfy`, module `Articles`: the `Article` record and its keys. It also
  holds `ReplaceField`, the one-cell edit that both `updateField` (page) and
  `updateArticle` (slice) perform.
- `strings.dfy`, module `Strings`: `toLowerCase` (on ASCII letters) and
  `includes`. `includes` is proved equal to "occurs at some position".
- `news_route.dfy`, module `NewsRoute`: the `GET` handler of
  `src/app/api/news/route.ts`, as a function. The environment key and
  the upstream `fetch` are parameters, so the result also records whether
  a request was made.
- `home_page.dfy`, module `HomePage`: from `src/app/page.tsx`, the
  `loadArticles` decision, the title filter, the sort comparator with a stable
  sort, and `updateField`.
- `articles_slice.dfy`, module `ArticlesSlice`: `articlesSlice` as a class with
  an array field. It has the two reducers and the dispatching reducer.

Host facilities are parameters. `new Date(s).getTime()` and
`localeCompare` are the two function fields of `HomePage.Host`.
`localeCompare` is only assumed to be a consistent comparator
(`ConsistentCompare`). What storage and the network return is given as a
datatype value (`SavedEntry`, `ApiData`, `Upstream`).

What the code does, and so what the model does: the filter looks at the
title only. There are four sort options, two by publication date and two by
source name. There is no pagination and no undo.

Two behaviours are kept as written:
- The index a row passes to `updateField` is its position in the sorted,
  filtered list, but it is applied to the unfiltered list
  (`FilteredRowEditsHiddenArticle`).
- The route answers with a bare array, but the page accepts the API body only
  if it has an `articles` array property. So the page never loads anything
  this route sends (`RouteAnswerIsNeverLoaded`).

## Model

| member | source | states |
|---|---|---|
| `Articles.WithField` | src/app/page.tsx:55 | `{ ...a, [k]: v }` has key `k` equal to `v`, every other key and the source unchanged |
| `Articles.ReplaceField` | src/app/articlesSlice.ts:38 | overwriting one cell keeps the length, puts `v` in field `k` of article `index`, keeps that article's other fields and source, and keeps every other article |
| `Articles.ReplaceFieldIsUnique` | src/app/page.tsx:53-57 | any list meeting ReplaceField's contract is ReplaceField's result, so the contract describes the edit completely |
| `Articles.ReplaceFieldLastWriteWins` | src/app/page.tsx:53-57 | two edits of the same cell leave only the second value |
| `Articles.ReplaceFieldWithSameValue` | src/app/page.tsx:53-57 | writing back the value a cell already holds leaves the list unchanged |
| `Strings.Lower` | src/app/page.tsx:65 | no contract of its own: `toLowerCase`, character by character on ASCII letters; LowerKeepsOccurrence and LowerIsIdempotent state its behaviour |
| `Strings.Includes` | src/app/page.tsx:65 | no contract of its own: `includes` as a left-to-right scan; IncludesIsSubstring and EmptyIsIncluded state its behaviour |
| `Strings.IncludesIsSubstring` | src/app/page.tsx:65 | the `includes` scan returns true exactly when the pattern occurs at some position of the text |
| `Strings.EmptyIsIncluded` | src/app/page.tsx:65 | every string includes the empty search term |
| `Strings.LowerKeepsOccurrence` | src/app/page.tsx:65 | under ASCII-only lower-casing, lower-casing text and pattern keeps an occurrence at the same position |
| `Strings.LowerIsIdempotent` | src/app/page.tsx:65 | lower-casing twice equals lower-casing once |
| `NewsRoute.RequestUrl` | src/app/api/news/route.ts:25-27 | no contract of its own: the top-headlines URL with the key appended; KeyedRequest states that it is the one URL fetched |
| `NewsRoute.Project` | src/app/api/news/route.ts:39-46 | no contract of its own: the object literal built for one record, failing on a null record or source; ProjectCopiesSixFields, ProjectDropsExtras and ProjectEmbed state its behaviour |
| `NewsRoute.Normalise` | src/app/api/news/route.ts:39-46 | the map succeeds exactly when every record projects; it then keeps the number of records and gives record i's projection at position i |
| `NewsRoute.ProjectCopiesSixFields` | src/app/api/news/route.ts:39-46 | a record with a source becomes an Article whose title, author, description, publishedAt, source name and url are the record's, unchanged |
| `NewsRoute.ProjectDropsExtras` | src/app/api/news/route.ts:39-46 | changing any field beyond the six, on the record or on its source, does not change the output |
| `NewsRoute.ProjectEmbed` | src/app/api/news/route.ts:39-46 | an Article embedded as an upstream record projects back to itself |
| `NewsRoute.NormaliseEmbedded` | src/app/api/news/route.ts:39-46 | normalising an embedded list of Articles gives the same list back |
| `NewsRoute.NormaliseAppend` | src/app/api/news/route.ts:39-46 | normalising a concatenation gives the two normalised parts, concatenated in order |
| `NewsRoute.Get` | src/app/api/news/route.ts:17-55 | no contract of its own: the whole handler; MissingKey, KeyedRequest, UpstreamNotOk, SuccessIsNormalisedArray, ThrownIsInternalError and StatusMatchesBody state each branch |
| `NewsRoute.MissingKey` | src/app/api/news/route.ts:19-23 | an unset or empty key gives 500 with "No API key provided", and no request is made |
| `NewsRoute.KeyedRequest` | src/app/api/news/route.ts:25-27 | with a key, the one request made is the top-headlines URL (technology, US, page size 10) ending in that key |
| `NewsRoute.UpstreamNotOk` | src/app/api/news/route.ts:29-35 | a response that is not ok gives 500 with "Failed to fetch news from NewsAPI" |
| `NewsRoute.SuccessIsNormalisedArray` | src/app/api/news/route.ts:37-48 | status is 200 exactly when the key is set, the reply is ok JSON with an `articles` array and every record projects; the body is then the normalised array itself |
| `NewsRoute.ThrownIsInternalError` | src/app/api/news/route.ts:49-55 | a rejected fetch, a non-JSON body, a missing `articles` array, or a null record or source each give 500 with "Internal Server Error" |
| `NewsRoute.StatusMatchesBody` | src/app/api/news/route.ts:17-55 | every answer is either 200 with an article array or 500 with an error object |
| `HomePage.LoadArticles` | src/app/page.tsx:20-47 | loading ends false. The fetch happens exactly when nothing truthy is saved or the saved value parses to something other than a non-empty array. A saved non-empty array becomes the list. Otherwise an `articles` array from the API becomes the list. Otherwise the list is kept. |
| `HomePage.LoadPrecedence` | src/app/page.tsx:23-38 | a saved non-empty array rules out the fetch; saved text that fails to parse rules out both the saved list and the fetch; no saved text always reaches the fetch |
| `HomePage.ClientData` | src/app/page.tsx:33-34 | no contract of its own: what `data.articles` is for a body the route sends; RouteAnswerIsNeverLoaded states that it is never an array |
| `HomePage.RouteAnswerIsNeverLoaded` | src/app/page.tsx:32-38 | for every answer of the news route, error or success, the page's `data.articles` check fails and nothing is loaded; this holds because neither an `{ error }` object nor a bare array has an `articles` key |
| `HomePage.Matches` | src/app/page.tsx:65 | no contract of its own: the filter callback; KeptIffTitleContainsTerm, VerbatimTitleMatchIsKept and FilterIgnoresTermCase state its behaviour |
| `HomePage.FilteredArticles` | src/app/page.tsx:64-66 | an article is in the result exactly when it is in the list and its lower-cased title includes the lower-cased term; the result is no longer than the list |
| `HomePage.FilterAppend` | src/app/page.tsx:64-66 | filtering a concatenation is the concatenation of the filtered parts, so relative order is kept |
| `HomePage.EmptyTermKeepsAll` | src/app/page.tsx:64-66 | the empty search term returns the whole list, unchanged and in order |
| `HomePage.KeptIffTitleContainsTerm` | src/app/page.tsx:65 | an article is kept exactly when the lower-cased term occurs in its lower-cased title, whatever its author says |
| `HomePage.VerbatimTitleMatchIsKept` | src/app/page.tsx:65 | under ASCII-only lower-casing, an article whose title contains the term with the same case is always kept |
| `HomePage.FilterIgnoresTermCase` | src/app/page.tsx:65 | filtering by a term and by its lower-cased form gives the same list |
| `HomePage.Compare` | src/app/page.tsx:68-83 | no contract of its own: the comparator with its five branches; CompareFlips and CompareTransitive state that it is consistent, and NewestFirst, OldestFirst, SourceAscending, SourceDescending and OtherOptionKeepsOrder state what each branch orders by |
| `HomePage.Insert` | src/app/page.tsx:68 | one insertion step of the sort adds exactly the inserted article to the list (as multisets) |
| `HomePage.SortedArticles` | src/app/page.tsx:68 | the sorted copy is a permutation of the filtered list: same multiset, same length |
| `HomePage.CompareFlips` | src/app/page.tsx:69-81 | for a consistent `localeCompare`, swapping the arguments of a positive comparison makes it negative |
| `HomePage.CompareTransitive` | src/app/page.tsx:69-81 | for a consistent `localeCompare`, "not after" is transitive under every option |
| `HomePage.InsertKeepsSorted` | src/app/page.tsx:68-83 | inserting into a list in comparator order keeps it in comparator order |
| `HomePage.SortIsSorted` | src/app/page.tsx:68-83 | the sort's output is in comparator order for every option |
| `HomePage.SortKeepsSortedInput` | src/app/page.tsx:68-83 | the stable sort returns a list that is already in comparator order unchanged |
| `HomePage.NewestFirst` | src/app/page.tsx:69-72 | with "newest", publication times never increase along the result |
| `HomePage.OldestFirst` | src/app/page.tsx:73-76 | with "oldest", publication times never decrease along the result |
| `HomePage.SourceAscending` | src/app/page.tsx:77-78 | with "source-az", source names ascend under `localeCompare` |
| `HomePage.SourceDescending` | src/app/page.tsx:79-80 | with "source-za", source names descend under `localeCompare` |
| `HomePage.SortIsStable` | src/app/page.tsx:68-83 | articles the comparator ranks equal keep, after the sort, the relative order they had in the filtered list |
| `HomePage.InsertKeepsTies` | src/app/page.tsx:68-83 | one insertion step puts the inserted article at the front of its tie group and leaves every other tie group as it was |
| `HomePage.OtherOptionKeepsOrder` | src/app/page.tsx:82 | any other option compares everything as 0, and the stable sort returns the filtered order itself |
| `HomePage.Displayed` | src/app/page.tsx:155-156 | the rendered rows are a permutation of the filtered articles |
| `HomePage.DisplayedNoLonger` | src/app/page.tsx:155-175 | there are never more rendered rows than articles, so every row position passed to `updateField` indexes the unfiltered list |
| `HomePage.UpdateField` | src/app/page.tsx:53-57 | the spread copy with one record replaced is exactly ReplaceField of the current list: same length, one field of one record set, all else kept |
| `HomePage.UnmovedRowsEditThemselves` | src/app/page.tsx:156-169 | with an empty term and a list already in the chosen option's order, the rows are the backing list itself, so row `i` is article `i` and an edit hits the row typed into |
| `HomePage.NewestFirstDataStaysInPlace` | src/app/page.tsx:18 | with the default option "newest" and two articles already newest first, the rows are the backing list in place |
| `HomePage.FilteredRowEditsHiddenArticle` | src/app/page.tsx:169 | for [alpha, beta] with the term "be", the only row shown is beta, yet editing row 0 writes alpha's title and leaves beta unchanged |
| `ArticlesSlice.ArticlesState.constructor` | src/app/articlesSlice.ts:22-24 | the initial state holds an empty article list |
| `ArticlesSlice.ArticlesState.SetArticles` | src/app/articlesSlice.ts:30-32 | the stored list becomes exactly the payload, in a fresh array; nothing of the previous list remains |
| `ArticlesSlice.ArticlesState.UpdateArticle` | src/app/articlesSlice.ts:33-39 | an index inside the list changes exactly that one cell (ReplaceField of the old list). An index outside the list throws and leaves the state unchanged |
| `ArticlesSlice.ArticlesState.Dispatch` | src/app/articlesSlice.ts:26-41 | each action runs its reducer with that reducer's contract; any other action leaves the state unchanged |
| `ArticlesSlice.UpdateKeepsDisplayOnlyFields` | src/app/articlesSlice.ts:35-38 | with the field restricted to title or author, no update changes any article's description, publishedAt, source or url |

## Left out

- Browser and server plumbing is left out: `fetch`, `localStorage`, `JSON.parse`/`JSON.stringify`, `console`, `alert`, `confirm`, `location.reload` and all JSX rendering. What storage, parsing and the network return is a datatype parameter.
- The Save and Clear buttons and `handleSave` (src/app/page.tsx:59-62, 117-152) only write or remove the storage entry. They are storage I/O and are not modelled.
- `handleSearchChange` and the select's `onChange` only set `searchTerm` and `sortOption`. The filter and the sort take those two values as parameters.
- The `loading` render branch (src/app/page.tsx:85) is left out. `LoadArticles` returns the final `loading` flag.
- Date parsing is abstract: `getTime` is any function from string to integer. Invalid dates give NaN in JavaScript, which makes the comparator inconsistent; that case is not modelled.
- `Strings.Lower`: lower-cases ASCII `A`..`Z` only. Unicode case mapping is not modelled.
- Strings are sequences of Unicode scalar values, not of UTF-16 code units as in JavaScript. So the positions in `Strings.OccursAt` and `Strings.LowerKeepsOccurrence` count code points, not JavaScript indices (`"\u{1F600}"` has length 1 here and 2 in JavaScript), and a search term that is a lone surrogate cannot be represented.
- `HomePage.VerbatimTitleMatchIsKept` and `Strings.LowerKeepsOccurrence` hold for ASCII lower-casing only. JavaScript's `toLowerCase` depends on context and can change length, and then both facts fail. `"ΑΣ".toLowerCase()` is `"ας"` (final sigma), but `"Σ".toLowerCase()` is `"σ"`, so the page drops an article titled "ΑΣ" for the search "Σ". Also, `"İ"` lowers to two code units, which moves every later position.
- `localeCompare` is abstract and assumed consistent for the source sorts. Locale rules are not modelled.
- The engine's `sort` is modelled as a stable insertion sort. For a consistent comparator, a stable sort's result is fully determined, so the model gives the same list as any engine's stable sort.
- `HomePage.UpdateField`: requires the index to be inside the list. Its callers pass a row position of `sortedArticles`, which is never longer than `articles` (`DisplayedNoLonger`). Out-of-range writes, which would pad the JavaScript array with holes, do not occur.
- `HomePage.UpdateField`: the field ranges over the five string keys. `keyof Article` also admits `source`, but no caller passes it, and storing a string there cannot be represented.
- Null field values (NewsAPI often sends `author: null`, shown as `article.author || ""`) are modelled as strings.
- `NewsRoute.UpstreamNotOk`: `await res.text()` while logging could itself reject. That would turn the answer into "Internal Server Error"; this is not modelled.
- The Redux slice is modelled with value semantics. Immer's draft copies and frozen state mean the reducers observably replace the list. `SetArticles` therefore copies the payload, and a thrown `updateArticle` leaves the state unchanged.
- `loadFromLocalStorage` (src/app/articlesSlice.ts:3-7) is unused storage I/O.
- src/lib/newsService.ts (RTK Query wrappers that do a one-field projection and a storage write), src/lib/mongodb.ts (database connection caching), src/app/store.ts, src/store.ts, src/app/layout.tsx and next.config.ts are framework wiring, configuration or I/O, and are not part of this model.
- `localStorage.getItem` throwing (src/app/page.tsx:23) is not modelled. The catch block would then run, no fetch would be made and nothing would be loaded.
- Saved or fetched arrays whose elements are not articles (such as `[1]`) are not modelled. They pass the checks at src/app/page.tsx:26 and :34 and then throw in the filter at :65.
- Upstream records with an absent (undefined) field are not modelled. `NextResponse.json` (src/app/api/news/route.ts:48) would drop that key from the output record.
