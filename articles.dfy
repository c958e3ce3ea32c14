/**
 * The article record shared by the page component, the reducer and the news
 * route (`Article` in src/app/page.tsx and src/app/articlesSlice.ts), and the
 * one edit both of them perform: overwrite one string field of one article.
 */
module Articles {

  /** `source: { name: string }` */
  datatype Source = Source(name: string)

  datatype Article = Article(
    title: string,
    author: string,
    description: string,
    publishedAt: string,
    source: Source,
    url: string)

  /** The string-valued keys of an article: `keyof Article` without the nested `source`. */
  datatype Key = Title | Author | Description | PublishedAt | Url

  /** The keys the reducer's `updateArticle` accepts: `"title" | "author"`. */
  type EditableKey = k: Key | k.Title? || k.Author? witness Title

  /** `article[key]` */
  function FieldOf(a: Article, k: Key): string {
    match k
    case Title => a.title
    case Author => a.author
    case Description => a.description
    case PublishedAt => a.publishedAt
    case Url => a.url
  }

  /** `{ ...article, [key]: value }` */
  function WithField(a: Article, k: Key, v: string): (r: Article)
    ensures FieldOf(r, k) == v
    ensures forall other: Key :: other != k ==> FieldOf(r, other) == FieldOf(a, other)
    ensures r.source == a.source
  {
    match k
    case Title => a.(title := v)
    case Author => a.(author := v)
    case Description => a.(description := v)
    case PublishedAt => a.(publishedAt := v)
    case Url => a.(url := v)
  }

  /** Two articles that agree on every key and on the source are the same record. */
  lemma SameFieldsSameArticle(a: Article, b: Article)
    requires forall k: Key :: FieldOf(a, k) == FieldOf(b, k)
    requires a.source == b.source
    ensures a == b
  {
    assert FieldOf(a, Title) == FieldOf(b, Title);
    assert FieldOf(a, Author) == FieldOf(b, Author);
    assert FieldOf(a, Description) == FieldOf(b, Description);
    assert FieldOf(a, PublishedAt) == FieldOf(b, PublishedAt);
    assert FieldOf(a, Url) == FieldOf(b, Url);
  }

  /**
   * The list after article `index` has had field `k` overwritten with `v`:
   * same length, the addressed cell holds `v`, the article's other fields and
   * source are kept, and every other article is untouched.
   */
  function ReplaceField(s: seq<Article>, index: nat, k: Key, v: string): (r: seq<Article>)
    requires index < |s|
    ensures |r| == |s|
    ensures FieldOf(r[index], k) == v
    ensures forall other: Key :: other != k ==> FieldOf(r[index], other) == FieldOf(s[index], other)
    ensures r[index].source == s[index].source
    ensures forall j :: 0 <= j < |s| && j != index ==> r[j] == s[j]
  {
    s[index := WithField(s[index], k, v)]
  }

  /** The contract of ReplaceField determines its result: any list meeting it is that list. */
  lemma ReplaceFieldIsUnique(s: seq<Article>, index: nat, k: Key, v: string, t: seq<Article>)
    requires index < |s|
    requires |t| == |s|
    requires FieldOf(t[index], k) == v
    requires forall other: Key :: other != k ==> FieldOf(t[index], other) == FieldOf(s[index], other)
    requires t[index].source == s[index].source
    requires forall j :: 0 <= j < |s| && j != index ==> t[j] == s[j]
    ensures t == ReplaceField(s, index, k, v)
  {
    var r := ReplaceField(s, index, k, v);
    SameFieldsSameArticle(t[index], r[index]);
  }

  /** A later write to the same cell wins; the earlier one leaves no trace. */
  lemma ReplaceFieldLastWriteWins(s: seq<Article>, index: nat, k: Key, v1: string, v2: string)
    requires index < |s|
    ensures ReplaceField(ReplaceField(s, index, k, v1), index, k, v2) == ReplaceField(s, index, k, v2)
  {
  }

  /** Writing back the value a cell already holds changes nothing. */
  lemma ReplaceFieldWithSameValue(s: seq<Article>, index: nat, k: Key)
    requires index < |s|
    ensures ReplaceField(s, index, k, FieldOf(s[index], k)) == s
  {
  }
}
