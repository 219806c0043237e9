/**
 * `MtgPriceFetcher` of `dl_scraper`: a per-name cache of per-set prices in
 * front of the MTGStocks search and prints endpoints. The cache is keyed by
 * `CardName`, which hashes and (for single-faced names) compares by its
 * `cleaned` key, so the map here is keyed by that text; the remote lookups
 * are the parameters `search` and `prints`.
 */
module StockCache {
  import opened Wrappers
  import opened Text
  import Lists
  import Money
  import CardNames
  import SetNames
  import opened StockApi

  /** One printing's price: the set and its `latest_price_mkm` in EUR. */
  datatype StocksCard = StocksCard(setName: SetNames.SetName, price: Money.Price)

  const NotFoundOnSite: string := "Card not found on MTGStocks"
  const NotFoundInSet: string := "Card not found in the set"

  /** Every `set_name` builds a `SetName` (otherwise the `unwrap` in the mapping panics). */
  predicate SetNamesValid(resp: PrintsResponse)
  {
    forall i :: 0 <= i < |resp.sets| ==> SetNames.New(JsonText(resp.sets[i].setName)).Ok?
  }

  /** The assumptions the fetcher's `unwrap`s make about the remote's answers. */
  ghost predicate WellBehaved(search: SearchRemote, prints: PrintsRemote)
  {
    (forall n :: search(n).Ok? ==> SlugAvailable(search(n).value))
    && (forall slug :: prints(slug).Ok? ==> SetNamesValid(prints(slug).value))
  }

  /**
   * The mapping of `sets[]` in `get_list_of_prices_for_card`: one entry per
   * printing, in order, whose set is built from the quoted JSON text and whose
   * price is `latest_price_mkm` in EUR, or 0 EUR when it is missing.
   */
  function PrintsList(resp: PrintsResponse): (r: seq<StocksCard>)
    requires SetNamesValid(resp)
    ensures |r| == |resp.sets|
    ensures forall i :: 0 <= i < |r| ==>
              r[i].setName == SetNames.New(JsonText(resp.sets[i].setName)).value
              && r[i].price.currency == Money.EUR
              && r[i].price.amount == (match resp.sets[i].latestPriceMkm case Some(p) => p case None => 0.0)
  {
    seq(|resp.sets|, i requires 0 <= i < |resp.sets| =>
      StocksCard(
        SetNames.New(JsonText(resp.sets[i].setName)).value,
        Money.Price(match resp.sets[i].latestPriceMkm case Some(p) => p case None => 0.0, Money.EUR)))
  }

  /** The JSON quotes make no difference: the set built from `"Beta"` is the one built from `Beta`. */
  lemma QuotesInvisible(t: string)
    ensures SetNames.StripQuotes(JsonText(Some(t))) == SetNames.StripQuotes(t)
    ensures SetNames.New(JsonText(Some(t))) == SetNames.New(t)
  {
    var q := "\"";
    assert JsonText(Some(t)) == q + t + q;
    KeepAppend(q + t, q, d => d != '\'');
    KeepAppend(q, t, d => d != '\'');
    var u := RemoveChar(t, '\'');
    assert RemoveChar(q, '\'') == q;
    assert RemoveChar(q + t + q, '\'') == q + u + q;
    KeepAppend(q + u, q, d => d != '"');
    KeepAppend(q, u, d => d != '"');
    assert RemoveChar(q, '"') == [];
  }

  /**
   * Search, then prints: the list for a card name, or the error that stopped
   * it (a transport failure, no usable search hit, or the body of a failed
   * prints answer).
   */
  function FetchList(name: string, search: SearchRemote, prints: PrintsRemote): (r: Result<seq<StocksCard>, string>)
    requires WellBehaved(search, prints)
    ensures r.Ok? ==> search(name).Ok? && ChooseSlug(search(name).value).Some?
    ensures r.Ok? ==> var resp := prints(ChooseSlug(search(name).value).value);
                      resp.Ok? && resp.value.success && r.value == PrintsList(resp.value)
    ensures search(name).Ok? && ChooseSlug(search(name).value).None? ==> r == Err(NotFoundOnSite)
  {
    match search(name)
    case Err(e) => Err(e)
    case Ok(resp) =>
      match ChooseSlug(resp)
      case None => Err(NotFoundOnSite)
      case Some(slug) =>
        match prints(slug)
        case Err(e) => Err(e)
        case Ok(p) => if p.success then Ok(PrintsList(p)) else Err(p.body)
  }

  /** The first entry of a list whose set equals `setName`. */
  function FindSet(list: seq<StocksCard>, setName: SetNames.SetName): (r: Option<Money.Price>)
    ensures r.Some? <==> exists i :: 0 <= i < |list| && SetNames.Eq(list[i].setName, setName)
    ensures r.Some? ==> exists i :: 0 <= i < |list| && SetNames.Eq(list[i].setName, setName) && list[i].price == r.value
                          && forall j :: 0 <= j < i ==> !SetNames.Eq(list[j].setName, setName)
  {
    match Lists.FindFirst(list, (c: StocksCard) => SetNames.Eq(c.setName, setName))
    case None => None
    case Some(i) => Some(list[i].price)
  }

  /** The cache hit of `get_live_card_price`: a cached list with an entry for the set. */
  function CachedPrice(cache: map<string, seq<StocksCard>>, name: CardNames.CardName, setName: SetNames.SetName): Option<Money.Price>
  {
    if name.cleaned in cache then FindSet(cache[name.cleaned], setName) else None
  }

  /**
   * What one call of `get_live_card_price` answers and what it leaves in the
   * cache. A hit answers from the cache and changes nothing. Otherwise the
   * list is fetched; on failure the error is returned and the cache is left
   * alone; on success the list replaces whatever was cached for the name, and
   * the answer is that list's entry for the set or "Card not found in the set".
   */
  function LiveStep(cache: map<string, seq<StocksCard>>, name: CardNames.CardName, setName: SetNames.SetName,
                    search: SearchRemote, prints: PrintsRemote): (r: (Result<Money.Price, string>, map<string, seq<StocksCard>>))
    requires WellBehaved(search, prints)
    ensures CachedPrice(cache, name, setName).Some? ==> r == (Ok(CachedPrice(cache, name, setName).value), cache)
    ensures CachedPrice(cache, name, setName).None? && FetchList(name.almostRaw, search, prints).Err? ==>
              r == (Err(FetchList(name.almostRaw, search, prints).error), cache)
    ensures CachedPrice(cache, name, setName).None? && FetchList(name.almostRaw, search, prints).Ok? ==>
              var list := FetchList(name.almostRaw, search, prints).value;
              r.1 == cache[name.cleaned := list]
              && (r.0.Ok? <==> FindSet(list, setName).Some?)
              && (r.0.Err? ==> r.0.error == NotFoundInSet)
    ensures r.0.Ok? ==> name.cleaned in r.1 && FindSet(r.1[name.cleaned], setName) == Some(r.0.value)
  {
    match CachedPrice(cache, name, setName)
    case Some(p) => (Ok(p), cache)
    case None =>
      match FetchList(name.almostRaw, search, prints)
      case Err(e) => (Err(e), cache)
      case Ok(list) =>
        var updated := cache[name.cleaned := list];
        match FindSet(list, setName)
        case Some(p) => (Ok(p), updated)
        case None => (Err(NotFoundInSet), updated)
  }

  /** Asking again after a successful answer is a cache hit: same answer, no remote call, no change. */
  lemma RepeatIsCached(cache: map<string, seq<StocksCard>>, name: CardNames.CardName, setName: SetNames.SetName,
                       search: SearchRemote, prints: PrintsRemote, search2: SearchRemote, prints2: PrintsRemote)
    requires WellBehaved(search, prints) && WellBehaved(search2, prints2)
    requires LiveStep(cache, name, setName, search, prints).0.Ok?
    ensures var (r, c) := LiveStep(cache, name, setName, search, prints);
            LiveStep(c, name, setName, search2, prints2) == (r, c)
  {
  }

  /** Any name spelled with the same key shares the cached list: its lookup is answered without fetching. */
  lemma SameKeySharesEntry(cache: map<string, seq<StocksCard>>, a: CardNames.CardName, b: CardNames.CardName,
                           setName: SetNames.SetName, search: SearchRemote, prints: PrintsRemote)
    requires WellBehaved(search, prints)
    requires a.cleaned == b.cleaned
    requires LiveStep(cache, a, setName, search, prints).0.Ok?
    ensures var (r, c) := LiveStep(cache, a, setName, search, prints);
            CachedPrice(c, b, setName) == Some(r.value)
  {
  }

  class PriceFetcher {
    var cache: map<string, seq<StocksCard>>

    /** `MtgPriceFetcher::new`: an empty cache. */
    constructor ()
      ensures cache == map[]
    {
      cache := map[];
    }

    /** `get_live_card_price`. */
    method GetLiveCardPrice(name: CardNames.CardName, setName: SetNames.SetName, search: SearchRemote, prints: PrintsRemote)
      returns (r: Result<Money.Price, string>)
      requires WellBehaved(search, prints)
      modifies this
      ensures (r, cache) == LiveStep(old(cache), name, setName, search, prints)
    {
      if name.cleaned in cache {
        var hit := FindSet(cache[name.cleaned], setName);
        if hit.Some? {
          return Ok(hit.value);
        }
      }
      var fetched := FetchList(name.almostRaw, search, prints);
      if fetched.Err? {
        return Err(fetched.error);
      }
      var list := fetched.value;
      var price := FindSet(list, setName);
      cache := cache[name.cleaned := list];
      if price.Some? {
        r := Ok(price.value);
      } else {
        r := Err(NotFoundInSet);
      }
    }
  }

  /**
   * Cloning the fetcher clones the `Arc`, so every clone works on one cache:
   * two handles to one fetcher see each other's updates.
   */
  method SharedCacheAcrossClones(f: PriceFetcher, name: CardNames.CardName, setName: SetNames.SetName,
                                 search: SearchRemote, prints: PrintsRemote)
    returns (first: Result<Money.Price, string>, second: Result<Money.Price, string>)
    requires WellBehaved(search, prints)
    modifies f
    ensures first.Ok? ==> second == first && f.cache == LiveStep(old(f.cache), name, setName, search, prints).1
  {
    var clone := f;
    first := f.GetLiveCardPrice(name, setName, search, prints);
    second := clone.GetLiveCardPrice(name, setName, search, prints);
    if first.Ok? {
      RepeatIsCached(old(f.cache), name, setName, search, prints, search, prints);
    }
  }
}
