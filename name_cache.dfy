/**
 * The `MtgPriceFetcher` of `mtg_rust`: a cache keyed by the exact card-name
 * string in front of the same search and prints calls as the uncached
 * checker. Its list differs only in that set names go through
 * `clean_string` (the helper of the same name in `mtg-rust`), which strips
 * the JSON quotes.
 */
module NameCache {
  import opened Wrappers
  import opened Text
  import opened Cleaning
  import opened StockApi
  import PriceChecker

  type StocksPrice = PriceChecker.StocksPrice

  const NotFoundOnSite: string := "Card not found on MTGStocks"

  /** `get_list_of_prices_for_card`: the uncached list with every set name cleaned. */
  function CleanList(resp: PrintsResponse): (r: seq<StocksPrice>)
    ensures |r| == |PriceChecker.RawList(resp)| == |resp.sets| + 1
    ensures forall i :: 0 <= i < |r| ==>
              r[i].setName == CleanString(PriceChecker.RawList(resp)[i].setName)
              && r[i].price == PriceChecker.RawList(resp)[i].price
  {
    var raw := PriceChecker.RawList(resp);
    seq(|raw|, i requires 0 <= i < |raw| => PriceChecker.StocksPrice(CleanString(raw[i].setName), raw[i].price))
  }

  /** `clean_string` of the quoted JSON text is `clean_string` of the name itself. */
  lemma CleanStringDropsQuotes(t: string)
    ensures CleanString(JsonText(Some(t))) == CleanString(t)
  {
    var q := "\"";
    assert JsonText(Some(t)) == q + t + q;
    assert !AlnumOrWhitespace('"');
    assert Keep(q, AlnumOrWhitespace) == [] by {
      assert q[0] == '"' && q[1..] == [];
    }
    KeepAppend(q + t, q, AlnumOrWhitespace);
    KeepAppend(q, t, AlnumOrWhitespace);
    assert Keep(q + t + q, AlnumOrWhitespace) == Keep(t, AlnumOrWhitespace);
  }

  /** The defaults: 1000.0 for a printing without a price, 100.0 for the main card without an average. */
  lemma PriceDefaults(resp: PrintsResponse, i: nat)
    requires i < |resp.sets| && resp.sets[i].latestPriceMkm.None?
    ensures CleanList(resp)[i].price == 1000.0
    ensures resp.averagePrice.None? ==> CleanList(resp)[|resp.sets|].price == 100.0
  {
  }

  ghost predicate SlugsAvailable(search: SearchRemote)
  {
    forall n :: search(n).Ok? ==> SlugAvailable(search(n).value)
  }

  /** Search, then prints, without the cache. */
  function FetchPrices(name: string, search: SearchRemote, prints: PrintsRemote): (r: Result<seq<StocksPrice>, string>)
    requires SlugsAvailable(search)
    ensures r.Ok? ==> |r.value| >= 1
    ensures r.Ok? ==> search(name).Ok? && ChooseSlug(search(name).value).Some?
                      && var p := prints(ChooseSlug(search(name).value).value);
                         p.Ok? && p.value.success && r.value == CleanList(p.value)
    ensures search(name).Ok? && ChooseSlug(search(name).value).None? ==> r == Err(NotFoundOnSite)
  {
    match search(name)
    case Err(e) => Err(e)
    case Ok(resp) =>
      match ChooseSlug(resp)
      case None => Err(NotFoundOnSite)
      case Some(slug) =>
        match prints(slug)
        case Err(e) => Err(e)
        case Ok(p) => if p.success then Ok(CleanList(p)) else Err(p.body)
  }

  /** Every cached list is non-empty (each holds at least the main card). */
  predicate CacheValid(cache: map<string, seq<StocksPrice>>)
  {
    forall k :: k in cache ==> |cache[k]| >= 1
  }

  /**
   * One call of `get_live_card_prices`: a cached name answers from the cache;
   * otherwise the fetched list is inserted and returned, and a failure leaves
   * the cache as it was.
   */
  function NameStep(cache: map<string, seq<StocksPrice>>, name: string, search: SearchRemote, prints: PrintsRemote)
    : (r: (Result<seq<StocksPrice>, string>, map<string, seq<StocksPrice>>))
    requires SlugsAvailable(search)
    ensures name in cache ==> r == (Ok(cache[name]), cache)
    ensures name !in cache ==> match FetchPrices(name, search, prints)
                               case Ok(list) => r == (Ok(list), cache[name := list])
                               case Err(e) => r == (Err(e), cache)
    ensures CacheValid(cache) ==> CacheValid(r.1) && (r.0.Ok? ==> |r.0.value| >= 1)
  {
    if name in cache then (Ok(cache[name]), cache)
    else match FetchPrices(name, search, prints)
      case Ok(list) => (Ok(list), cache[name := list])
      case Err(e) => (Err(e), cache)
  }

  /** The key is the exact string: a call for one spelling never touches another spelling's entry. */
  lemma OtherNamesUntouched(cache: map<string, seq<StocksPrice>>, name: string, other: string, search: SearchRemote, prints: PrintsRemote)
    requires SlugsAvailable(search) && other != name
    ensures other in NameStep(cache, name, search, prints).1 <==> other in cache
    ensures other in cache ==> NameStep(cache, name, search, prints).1[other] == cache[other]
  {
  }

  /** After a successful call the same name is a hit with the same list, whatever the remote would say now. */
  lemma RepeatIsCached(cache: map<string, seq<StocksPrice>>, name: string, search: SearchRemote, prints: PrintsRemote,
                       search2: SearchRemote, prints2: PrintsRemote)
    requires SlugsAvailable(search) && SlugsAvailable(search2)
    requires NameStep(cache, name, search, prints).0.Ok?
    ensures var (r, c) := NameStep(cache, name, search, prints);
            NameStep(c, name, search2, prints2) == (r, c)
  {
  }

  class NameCachedFetcher {
    var cache: map<string, seq<StocksPrice>>

    predicate Valid()
      reads this
    {
      CacheValid(cache)
    }

    constructor ()
      ensures cache == map[] && Valid()
    {
      cache := map[];
    }

    /** `get_live_card_prices`. */
    method GetLiveCardPrices(name: string, search: SearchRemote, prints: PrintsRemote)
      returns (r: Result<seq<StocksPrice>, string>)
      requires SlugsAvailable(search) && Valid()
      modifies this
      ensures (r, cache) == NameStep(old(cache), name, search, prints)
      ensures Valid() && (r.Ok? ==> |r.value| >= 1)
    {
      if name in cache {
        return Ok(cache[name]);
      }
      r := FetchPrices(name, search, prints);
      if r.Ok? {
        cache := cache[name := r.value];
      }
    }
  }
}
