/**
 * The `GET` handler of src/app/api/news/route.ts: check for the API key, ask
 * NewsAPI for the technology top headlines, and project every upstream record
 * onto the six fields of an Article. The upstream call is a parameter, so
 * whether it was made at all is visible in the result.
 */
module NewsRoute {
  import opened Wrappers
  import opened Articles

  /** An upstream `source` object: its `name` and whatever else NewsAPI sent (`id`, ...). */
  datatype RawSource = RawSource(name: string, extras: map<string, string>)

  /**
   * One element of NewsAPI's `articles` array. `source` is None when NewsAPI
   * sent `null` for it; `extras` holds every other field (`urlToImage`,
   * `content`, ...). An element may itself be `null`.
   */
  datatype RawArticle =
    | NullRecord
    | Record(
        title: string,
        author: string,
        description: string,
        publishedAt: string,
        source: Option<RawSource>,
        url: string,
        extras: map<string, string>)

  /** What `await res.json()` gives: not JSON at all, or a value whose `articles` array may be missing. */
  datatype UpstreamBody = NotJson | Json(articles: Option<seq<RawArticle>>)

  /** The outcome of the `fetch` call: rejected, or a response with its `ok` flag and body. */
  datatype Upstream = Rejected | Reply(ok: bool, body: UpstreamBody)

  /** The JSON body the route sends: an `{ error }` object or a bare array of articles. */
  datatype ResponseBody = ErrorBody(error: string) | ArticleList(items: seq<Article>)

  datatype Response = Response(status: int, body: ResponseBody)

  /** The response, and the URL that was fetched (None when no request was made). */
  datatype Handled = Handled(response: Response, requested: Option<string>)

  const NoApiKey := "No API key provided"
  const UpstreamFailed := "Failed to fetch news from NewsAPI"
  const InternalError := "Internal Server Error"

  /** The top-headlines query with the key appended. */
  function RequestUrl(apiKey: string): string {
    "https://newsapi.org/v2/top-headlines?country=us&category=technology&pageSize=10&apiKey=" + apiKey
  }

  /**
   * The object literal built for one upstream record. None where the source
   * throws: reading a field of a `null` record, or `.name` of a `null` source.
   */
  function Project(raw: RawArticle): Option<Article> {
    match raw
    case NullRecord => None
    case Record(title, author, description, publishedAt, source, url, _) =>
      match source
      case None => None
      case Some(src) => Some(Article(title, author, description, publishedAt, Source(src.name), url))
  }

  /**
   * `data.articles.map(...)`: every record projected, in order, or None when
   * some record makes the projection throw.
   */
  function Normalise(raw: seq<RawArticle>): (r: Option<seq<Article>>)
    ensures r.Some? <==> forall i :: 0 <= i < |raw| ==> Project(raw[i]).Some?
    ensures r.Some? ==> |r.value| == |raw|
    ensures r.Some? ==> forall i :: 0 <= i < |raw| ==> Project(raw[i]) == Some(r.value[i])
  {
    if raw == [] then Some([])
    else
      match Project(raw[0])
      case None => None
      case Some(a) =>
        match Normalise(raw[1..])
        case None => None
        case Some(rest) =>
          assert forall i :: 1 <= i < |raw| ==> raw[i] == raw[1..][i - 1];
          Some([a] + rest)
  }

  /** The handler, for the value of `NEWS_API_KEY` and the upstream `fetch`. */
  function Get(apiKey: Option<string>, fetch: string -> Upstream): Handled {
    if apiKey.None? || apiKey.value == "" then
      Handled(Response(500, ErrorBody(NoApiKey)), None)
    else
      var url := RequestUrl(apiKey.value);
      var response :=
        match fetch(url)
        case Rejected => Response(500, ErrorBody(InternalError))
        case Reply(ok, body) =>
          if !ok then Response(500, ErrorBody(UpstreamFailed))
          else
            match body
            case NotJson => Response(500, ErrorBody(InternalError))
            case Json(articles) =>
              if articles.None? then Response(500, ErrorBody(InternalError))
              else
                match Normalise(articles.value)
                case None => Response(500, ErrorBody(InternalError))
                case Some(list) => Response(200, ArticleList(list));
      Handled(response, Some(url))
  }

  /** A record carrying exactly an Article's fields and nothing else. */
  function Embed(a: Article): RawArticle {
    Record(a.title, a.author, a.description, a.publishedAt, Some(RawSource(a.source.name, map[])), a.url, map[])
  }

  /** Every record projects to an Article that copies its six fields unchanged. */
  lemma ProjectCopiesSixFields(raw: RawArticle)
    requires raw.Record? && raw.source.Some?
    ensures Project(raw) == Some(Article(raw.title, raw.author, raw.description, raw.publishedAt, Source(raw.source.value.name), raw.url))
  {
  }

  /** Fields beyond the six, on the record or on its source, never reach the output. */
  lemma ProjectDropsExtras(raw: RawArticle, extras: map<string, string>, sourceExtras: map<string, string>)
    requires raw.Record? && raw.source.Some?
    ensures Project(raw.(extras := extras, source := Some(raw.source.value.(extras := sourceExtras)))) == Project(raw)
  {
  }

  /** Embedding an article and projecting it back gives the article. */
  lemma ProjectEmbed(a: Article)
    ensures Project(Embed(a)) == Some(a)
  {
  }

  /** Normalising the embedding of a list of articles gives that list back. */
  lemma {:induction false} NormaliseEmbedded(s: seq<Article>)
    ensures Normalise(seq(|s|, i requires 0 <= i < |s| => Embed(s[i]))) == Some(s)
  {
    var raw := seq(|s|, i requires 0 <= i < |s| => Embed(s[i]));
    forall i | 0 <= i < |s| ensures Project(raw[i]) == Some(s[i]) {
      ProjectEmbed(s[i]);
    }
    var r := Normalise(raw);
    assert r.value == s;
  }

  /** Normalisation distributes over concatenation: the order of records is kept. */
  lemma {:induction false} NormaliseAppend(a: seq<RawArticle>, b: seq<RawArticle>)
    requires Normalise(a).Some? && Normalise(b).Some?
    ensures Normalise(a + b) == Some(Normalise(a).value + Normalise(b).value)
  {
    var ab := a + b;
    assert forall i :: 0 <= i < |ab| ==> Project(ab[i]).Some? by {
      forall i | 0 <= i < |ab| ensures Project(ab[i]).Some? {
        if i < |a| { assert ab[i] == a[i]; } else { assert ab[i] == b[i - |a|]; }
      }
    }
    assert Normalise(ab).Some?;
    var r, ra, rb := Normalise(ab).value, Normalise(a).value, Normalise(b).value;
    forall i | 0 <= i < |ab| ensures r[i] == (ra + rb)[i] {
      if i < |a| { assert ab[i] == a[i]; } else { assert ab[i] == b[i - |a|]; }
    }
    assert r == ra + rb;
  }

  /** Without a key the handler answers 500 and never calls upstream. */
  lemma MissingKey(apiKey: Option<string>, fetch: string -> Upstream)
    requires apiKey.None? || apiKey.value == ""
    ensures Get(apiKey, fetch) == Handled(Response(500, ErrorBody(NoApiKey)), None)
  {
  }

  /** With a key, exactly one request is made, to the top-headlines URL carrying that key. */
  lemma KeyedRequest(key: string, fetch: string -> Upstream)
    requires key != ""
    ensures Get(Some(key), fetch).requested == Some(RequestUrl(key))
  {
  }

  /** A response that is not `ok` gives 500 with the upstream-failure message. */
  lemma UpstreamNotOk(key: string, fetch: string -> Upstream)
    requires key != ""
    requires fetch(RequestUrl(key)).Reply? && !fetch(RequestUrl(key)).ok
    ensures Get(Some(key), fetch).response == Response(500, ErrorBody(UpstreamFailed))
  {
  }

  /**
   * The handler succeeds exactly when the key is set, the answer is `ok` JSON
   * with an `articles` array and every record projects; its body is then the
   * normalised array itself.
   */
  lemma SuccessIsNormalisedArray(apiKey: Option<string>, fetch: string -> Upstream)
    ensures Get(apiKey, fetch).response.status == 200 <==>
      && apiKey.Some? && apiKey.value != ""
      && var up := fetch(RequestUrl(apiKey.value));
      && up.Reply? && up.ok && up.body.Json? && up.body.articles.Some?
      && Normalise(up.body.articles.value).Some?
    ensures Get(apiKey, fetch).response.status == 200 ==>
      var up := fetch(RequestUrl(apiKey.value));
      Get(apiKey, fetch).response.body == ArticleList(Normalise(up.body.articles.value).value)
  {
  }

  /**
   * Every failure that would be thrown inside the `try` (a rejected fetch, a
   * body that is not JSON, a missing `articles` array, a `null` record or
   * source) yields 500 with the generic message.
   */
  lemma ThrownIsInternalError(key: string, fetch: string -> Upstream)
    requires key != ""
    requires var up := fetch(RequestUrl(key));
      || up.Rejected?
      || (up.ok && up.body.NotJson?)
      || (up.ok && up.body.Json? && up.body.articles.None?)
      || (up.ok && up.body.Json? && up.body.articles.Some?
          && exists i :: 0 <= i < |up.body.articles.value| && Project(up.body.articles.value[i]).None?)
    ensures Get(Some(key), fetch).response == Response(500, ErrorBody(InternalError))
  {
  }

  /** Every answer is either 200 with an article array or 500 with an error object. */
  lemma StatusMatchesBody(apiKey: Option<string>, fetch: string -> Upstream)
    ensures var r := Get(apiKey, fetch).response;
      (r.status == 200 && r.body.ArticleList?) || (r.status == 500 && r.body.ErrorBody?)
  {
  }
}
