/**
 * The MTGStocks responses the price fetchers read, reduced to the fields they
 * use. A search answer is a list of hits with an optional `name` and `slug`;
 * a prints answer has the main card's set name and average price and one
 * entry per printing. Transport and JSON decoding failures are the `Err` side
 * of the remote functions.
 */
module StockApi {
  import opened Wrappers
  import opened Text
  import Lists

  datatype SearchHit = SearchHit(name: Option<string>, slug: Option<string>)

  /** A search answer: whether the status was a success, and the decoded hits. */
  datatype SearchResponse = SearchResponse(success: bool, hits: seq<SearchHit>)

  /** One element of `sets[]`: `set_name` (when a string) and `latest_price_mkm` (when a number). */
  datatype SetEntry = SetEntry(setName: Option<string>, latestPriceMkm: Option<real>)

  /** A prints answer; `body` is the response text, returned as the error on a failed status. */
  datatype PrintsResponse = PrintsResponse(
    success: bool,
    body: string,
    cardSetName: Option<string>,
    averagePrice: Option<real>,
    sets: seq<SetEntry>)

  /** The search endpoint, by card name. */
  type SearchRemote = string -> Result<SearchResponse, string>

  /** The prints endpoint, by slug. */
  type PrintsRemote = string -> Result<PrintsResponse, string>

  /** `obj["name"].as_str().unwrap_or("")`. */
  function NameText(h: SearchHit): string
  {
    match h.name
    case Some(n) => n
    case None => ""
  }

  /** The search filter: hits whose name mentions "Token" are dropped. */
  predicate NotToken(h: SearchHit)
  {
    !Contains(NameText(h), "Token")
  }

  /** The answer's first kept hit, if the status was a success. */
  function FirstKept(resp: SearchResponse): (r: Option<nat>)
    ensures r.Some? ==> resp.success && r.value < |resp.hits| && NotToken(resp.hits[r.value])
    ensures r.Some? ==> forall j :: 0 <= j < r.value ==> !NotToken(resp.hits[j])
    ensures r.None? <==> !resp.success || forall j :: 0 <= j < |resp.hits| ==> !NotToken(resp.hits[j])
  {
    if resp.success then Lists.FindFirst(resp.hits, NotToken) else None
  }

  /** The slug `unwrap` reads is present on the first kept hit (otherwise the fetcher panics). */
  predicate SlugAvailable(resp: SearchResponse)
  {
    FirstKept(resp).Some? ==> resp.hits[FirstKept(resp).value].slug.Some?
  }

  /**
   * `get_card_search_uri`: the slug of the first hit whose name does not
   * contain "Token"; nothing on a failed status or when every hit is a token.
   */
  function ChooseSlug(resp: SearchResponse): (r: Option<string>)
    requires SlugAvailable(resp)
    ensures r.Some? <==> resp.success && exists j :: 0 <= j < |resp.hits| && NotToken(resp.hits[j])
    ensures r.Some? ==> exists i :: 0 <= i < |resp.hits| && NotToken(resp.hits[i])
                          && (forall j :: 0 <= j < i ==> !NotToken(resp.hits[j]))
                          && resp.hits[i].slug == Some(r.value)
  {
    match FirstKept(resp)
    case None => None
    case Some(i) => Some(resp.hits[i].slug.value)
  }

  /** A token hit ahead of a real card is passed over. */
  lemma TokenSkipped(resp: SearchResponse, s: string)
    requires resp.success && |resp.hits| >= 2
    requires Contains(NameText(resp.hits[0]), "Token")
    requires !Contains(NameText(resp.hits[1]), "Token") && resp.hits[1].slug == Some(s)
    ensures SlugAvailable(resp) && ChooseSlug(resp) == Some(s)
  {
    assert !NotToken(resp.hits[0]) && NotToken(resp.hits[1]);
  }

  /** `value.to_string()` of an optional JSON string: the quoted text, or `null`. */
  function JsonText(s: Option<string>): (r: string)
    ensures s.Some? ==> |r| == |s.value| + 2 && r[0] == '"' && r[|r| - 1] == '"' && r[1..|r| - 1] == s.value
    ensures s.None? ==> r == "null"
  {
    match s
    case Some(t) => "\"" + t + "\""
    case None => "null"
  }
}
