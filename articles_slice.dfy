/**
 * The `articles` slice of src/app/articlesSlice.ts: a Redux state holding
 * one list of articles, with a reducer that replaces the list and one that
 * writes a title or an author in place.
 */
module ArticlesSlice {
  import opened Articles

  /** The actions the slice's reducer is dispatched with. */
  datatype Action =
    | SetArticles(payload: seq<Article>)
    | UpdateArticle(index: int, field: EditableKey, value: string)
    | OtherAction

  /** `ArticlesState`, with `articles` as an array the reducers write into. */
  class ArticlesState {
    var articles: array<Article>

    /** `initialState`: no articles. */
    constructor ()
      ensures fresh(articles)
      ensures articles[..] == []
    {
      articles := new Article[0];
    }

    /** `setArticles`: the stored list becomes exactly the payload; the previous list is gone. */
    method SetArticles(payload: seq<Article>)
      modifies this
      ensures fresh(articles)
      ensures articles[..] == payload
    {
      articles := new Article[|payload|](i requires 0 <= i < |payload| => payload[i]);
    }

    /**
     * `updateArticle`: `state.articles[index][field] = value`. An index outside
     * the list reads `undefined` and the assignment throws a TypeError, which
     * leaves the state as it was; `threw` reports that case.
     */
    method UpdateArticle(index: int, field: EditableKey, value: string) returns (threw: bool)
      modifies articles
      ensures threw <==> !(0 <= index < articles.Length)
      ensures threw ==> articles[..] == old(articles[..])
      ensures !threw ==> articles[..] == ReplaceField(old(articles[..]), index, field, value)
    {
      if !(0 <= index < articles.Length) {
        return true;
      }
      articles[index] := WithField(articles[index], field, value);
      threw := false;
    }

    /** The slice's reducer: route an action to its case; any other action leaves the state alone. */
    method Dispatch(action: Action) returns (threw: bool)
      modifies this, articles
      ensures action.SetArticles? ==> !threw && fresh(articles) && articles[..] == action.payload
      ensures action.UpdateArticle? ==> articles == old(articles)
      ensures action.UpdateArticle? ==> (threw <==> !(0 <= action.index < articles.Length))
      ensures action.UpdateArticle? && threw ==> articles[..] == old(articles[..])
      ensures action.UpdateArticle? && !threw ==>
        articles[..] == ReplaceField(old(articles[..]), action.index, action.field, action.value)
      ensures action.OtherAction? ==> !threw && articles == old(articles) && articles[..] == old(articles[..])
    {
      match action {
        case SetArticles(payload) =>
          SetArticles(payload);
          threw := false;
        case UpdateArticle(index, field, value) =>
          threw := UpdateArticle(index, field, value);
        case OtherAction =>
          threw := false;
      }
    }
  }

  /**
   * An update names `title` or `author` only, so the description, the
   * publication date, the source and the URL of every article survive it.
   */
  lemma UpdateKeepsDisplayOnlyFields(s: seq<Article>, index: nat, field: EditableKey, value: string)
    requires index < |s|
    ensures var r := ReplaceField(s, index, field, value);
      forall j :: 0 <= j < |s| ==>
        && r[j].description == s[j].description
        && r[j].publishedAt == s[j].publishedAt
        && r[j].source == s[j].source
        && r[j].url == s[j].url
  {
  }
}
