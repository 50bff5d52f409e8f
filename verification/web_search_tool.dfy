/** The web-search tool (`query_tavily_web_search` in
    src/agent_graph/tavily_search_tool.py): renders each search result as
    title, content and source URL, joins them with a blank line, returns a
    fixed message when the response carries no result list, and turns every
    exception into an answer string.

    The search API is an oracle. Its response is abstracted to the three
    shapes the tool distinguishes.
 */
module WebSearchTool {
  import opened Outcomes
  import opened Text

  /** A search result: a dictionary from field name to text. */
  type SearchItem = map<string, string>

  /** The response as the tool's tests see it: falsy, lacking a
      `"results"` key, or holding a result list. */
  datatype SearchResponse = Falsy | WithoutResults | WithResults(items: seq<SearchItem>)

  const NoResultsMessage: string := "No relevant web search results found."
  const SearchErrorPrefix: string := "Error performing web search: "
  const ResultSeparator: string := "\n\n"

  /** `r[key]`: the field, or the `KeyError` whose text is the quoted key. */
  function Field(item: SearchItem, key: string): (r: Outcome<string>)
    ensures r.Raised? <==> key !in item
  {
    if key in item then Ok(item[key]) else Raised("'" + key + "'")
  }

  /** One result, `"{title}:\n{content}\n(Source: {url})"`; the fields are
      read left to right, so the first missing one names the error. */
  function RenderResult(item: SearchItem): Outcome<string> {
    var title :- Field(item, "title");
    var content :- Field(item, "content");
    var url :- Field(item, "url");
    Ok(title + ":\n" + content + "\n(Source: " + url + ")")
  }

  /** The body of the tool's `try` block. */
  function SearchPipeline(query: string, maxResults: nat,
                          search: (string, nat) -> Outcome<SearchResponse>): Outcome<string> {
    var response :- search(query, maxResults);
    if !response.WithResults? then Ok(NoResultsMessage)
    else
      var rendered :- MapAll(response.items, RenderResult);
      Ok(Join(rendered, ResultSeparator))
  }

  /** `query_tavily_web_search`: never raises. */
  function QueryTavilyWebSearch(query: string, maxResults: nat,
                                search: (string, nat) -> Outcome<SearchResponse>): string {
    match SearchPipeline(query, maxResults, search)
    case Ok(text) => text
    case Raised(e) => SearchErrorPrefix + e
  }

  predicate Complete(item: SearchItem) {
    "title" in item && "content" in item && "url" in item
  }

  /** A result renders exactly when it has all three fields, and the first
      missing one (in title, content, url order) is the error. */
  lemma RenderResultCases(item: SearchItem)
    ensures RenderResult(item).Ok? <==> Complete(item)
    ensures Complete(item) ==>
      (RenderResult(item) == Ok(item["title"] + ":\n" + item["content"] + "\n(Source: " + item["url"] + ")"))
    ensures "title" !in item ==> RenderResult(item) == Raised("'title'")
    ensures "title" in item && "content" !in item ==> RenderResult(item) == Raised("'content'")
    ensures "title" in item && "content" in item && "url" !in item ==> RenderResult(item) == Raised("'url'")
  {
  }

  /** Complete results are rendered one each, joined by a blank line in the
      order the search returned them. */
  lemma CompleteResultsJoined(query: string, maxResults: nat,
                              search: (string, nat) -> Outcome<SearchResponse>)
    requires search(query, maxResults).Ok? && search(query, maxResults).value.WithResults?
    requires forall it :: it in search(query, maxResults).value.items ==> Complete(it)
    ensures var items := search(query, maxResults).value.items;
      var rendered := MapAll(items, RenderResult);
      && rendered.Ok?
      && (forall i :: 0 <= i < |items| ==> RenderResult(items[i]) == Ok(rendered.value[i]))
      && QueryTavilyWebSearch(query, maxResults, search) == Join(rendered.value, ResultSeparator)
  {
    var items := search(query, maxResults).value.items;
    forall it | it in items ensures RenderResult(it).Ok? {
      RenderResultCases(it);
    }
    MapAllSucceeds(items, RenderResult);
  }

  /** The three outcomes that do not depend on the result contents. */
  lemma QueryTavilyWebSearchOutcomes(query: string, maxResults: nat,
                                     search: (string, nat) -> Outcome<SearchResponse>)
    ensures var r := QueryTavilyWebSearch(query, maxResults, search);
      && (search(query, maxResults) == Ok(Falsy) ==> r == NoResultsMessage)
      && (search(query, maxResults) == Ok(WithoutResults) ==> r == NoResultsMessage)
      && (search(query, maxResults) == Ok(WithResults([])) ==> r == "")
      && (search(query, maxResults).Raised? ==> r == SearchErrorPrefix + search(query, maxResults).error)
  {
  }

  /** A result missing a field turns the whole answer into the error string
      naming that field, whatever the later results hold. */
  lemma IncompleteResultFails(query: string, maxResults: nat,
                              search: (string, nat) -> Outcome<SearchResponse>, k: nat)
    requires search(query, maxResults).Ok? && search(query, maxResults).value.WithResults?
    requires var items := search(query, maxResults).value.items;
      k < |items| && !Complete(items[k]) && forall j :: 0 <= j < k ==> Complete(items[j])
    ensures var items := search(query, maxResults).value.items;
      QueryTavilyWebSearch(query, maxResults, search) == SearchErrorPrefix + RenderResult(items[k]).error
  {
    var items := search(query, maxResults).value.items;
    forall j | 0 <= j <= k
      ensures RenderResult(items[j]).Ok? <==> j < k
    {
      RenderResultCases(items[j]);
    }
    MapAllFirstFailure(items, RenderResult, k);
  }
}
