/**
 * The uncached price checker of `mtg-rust` (`utils/price_checker.rs`): every
 * call searches for the card, then reads its printings. The list it returns
 * holds one entry per printing, set names as raw JSON text, followed by one
 * entry for the main card.
 */
module PriceChecker {
  import opened Wrappers
  import opened Text
  import opened StockApi

  /** `MtgStocksCard` of `mtg-rust`: a set name as text and a price in EUR. */
  datatype StocksPrice = StocksPrice(setName: string, price: real)

  const NotFoundMessage: string := "Card not found. Please check the spelling and try again."

  /** The price defaults of the prints mapping. */
  const SetPriceDefault: real := 1000.0
  const MainPriceDefault: real := 100.0

  function OrDefault(x: Option<real>, d: real): (r: real)
    ensures x.Some? ==> r == x.value
    ensures x.None? ==> r == d
  {
    match x
    case Some(v) => v
    case None => d
  }

  /**
   * `get_list_of_prices_for_card`: each `sets[]` entry in order (JSON text of
   * `set_name`, price or 1000.0), then the main card (JSON text of the card
   * set's name, average price or 100.0).
   */
  function RawList(resp: PrintsResponse): (r: seq<StocksPrice>)
    ensures |r| == |resp.sets| + 1
    ensures forall i :: 0 <= i < |resp.sets| ==>
              r[i] == StocksPrice(JsonText(resp.sets[i].setName), OrDefault(resp.sets[i].latestPriceMkm, SetPriceDefault))
    ensures r[|r| - 1] == StocksPrice(JsonText(resp.cardSetName), OrDefault(resp.averagePrice, MainPriceDefault))
  {
    seq(|resp.sets|, i requires 0 <= i < |resp.sets| =>
      StocksPrice(JsonText(resp.sets[i].setName), OrDefault(resp.sets[i].latestPriceMkm, SetPriceDefault)))
    + [StocksPrice(JsonText(resp.cardSetName), OrDefault(resp.averagePrice, MainPriceDefault))]
  }

  /** The search answers name the slug they promise (the `unwrap` in the search holds). */
  ghost predicate SlugsAvailable(search: SearchRemote)
  {
    forall n :: search(n).Ok? ==> SlugAvailable(search(n).value)
  }

  /**
   * `get_live_card_prices`: search, then prints, with no cache. A failed
   * prints status gives its body as the error.
   */
  function GetLiveCardPrices(name: string, search: SearchRemote, prints: PrintsRemote): (r: Result<seq<StocksPrice>, string>)
    requires SlugsAvailable(search)
    ensures r.Ok? <==> (search(name).Ok? && ChooseSlug(search(name).value).Some?
                        && prints(ChooseSlug(search(name).value).value).Ok?
                        && prints(ChooseSlug(search(name).value).value).value.success)
    ensures r.Ok? ==> r.value == RawList(prints(ChooseSlug(search(name).value).value).value) && |r.value| >= 1
    ensures search(name).Ok? && ChooseSlug(search(name).value).None? ==> r == Err(NotFoundMessage)
    ensures search(name).Ok? && ChooseSlug(search(name).value).Some?
            && prints(ChooseSlug(search(name).value).value).Ok?
            && !prints(ChooseSlug(search(name).value).value).value.success
            ==> r == Err(prints(ChooseSlug(search(name).value).value).value.body)
  {
    match search(name)
    case Err(e) => Err(e)
    case Ok(resp) =>
      match ChooseSlug(resp)
      case None => Err(NotFoundMessage)
      case Some(slug) =>
        match prints(slug)
        case Err(e) => Err(e)
        case Ok(p) => if p.success then Ok(RawList(p)) else Err(p.body)
  }

  /** The set strings keep their JSON quotes: a printing of `Beta` is listed as `"Beta"`. */
  lemma SetNamesKeepQuotes(resp: PrintsResponse, i: nat, t: string)
    requires i < |resp.sets| && resp.sets[i].setName == Some(t)
    ensures RawList(resp)[i].setName == "\"" + t + "\""
  {
  }
}
