/**
 * The cheapest-price comparator of `mtg-rust` (`utils/compare_prices.rs`).
 * Per card name the vendor cards are split by foil state; each non-empty side
 * yields at most one `ComparedCard`: the cheapest vendor card against the
 * cheapest reference price in EUR, converted with the day's rate and rounded
 * up. Maps here are keyed by the whole `OldCardName`, whose equality and hash
 * are derived. The live price list (`MtgPriceFetcher::get_live_card_prices`)
 * is the parameter `live`, and `external_price_check` is `externalCheck`.
 */
module LegacyCompare {
  import opened Wrappers
  import opened Lists
  import opened LegacyCards
  import Cards
  import PriceChecker

  /** `ComparedCard` of `mtg-rust`. */
  datatype OldComparedCard = OldComparedCard(
    name: string,
    foil: bool,
    vendor: Cards.Vendor,
    cheapestSetPriceMcmSek: int,
    priceDifference: int,
    vendorCards: seq<OldVendorCard>)

  datatype CompareError =
    | NoVendorCards
    | NoReferenceCards
    | NoReferencePrice
    | ExternalCheckRefused
    | LiveFetchFailed(message: string)

  /** The live list for a name; the fetcher always lists the main card, so a list it returns is never empty. */
  type LiveList = string -> Result<seq<PriceChecker.StocksPrice>, string>

  ghost predicate LiveListsNonEmpty(live: LiveList)
  {
    forall n :: live(n).Ok? ==> |live(n).value| >= 1
  }

  /** The fallback rate when the rate service cannot be read. */
  const FallbackRate: real := 11.5

  /** `get_currency_rate_eur_to_sec(...).unwrap_or(11.5)`. */
  function RateOrFallback(fetched: Option<real>): (r: real)
    ensures fetched.Some? ==> r == fetched.value
    ensures fetched.None? ==> r == 11.5
  {
    match fetched
    case Some(x) => x
    case None => FallbackRate
  }

  // ---------------------------------------------------------------- cheapest choices

  /** The comparator of the `min_by` calls: a priced record is below an unpriced one; two priced ones compare by price. */
  predicate PriceBelow(a: Option<real>, b: Option<real>)
  {
    (a.Some? && b.None?) || (a.Some? && b.Some? && a.value < b.value)
  }

  /**
   * `min_by` over optional prices: the first element that no other element is
   * strictly below.
   */
  function MinByIndex(xs: seq<Option<real>>): (i: nat)
    requires |xs| > 0
    ensures i < |xs|
    ensures forall j :: 0 <= j < |xs| ==> !PriceBelow(xs[j], xs[i])
    ensures forall j :: 0 <= j < i ==> PriceBelow(xs[i], xs[j])
    decreases |xs|
  {
    if |xs| == 1 then 0
    else
      var m := MinByIndex(xs[..|xs| - 1]);
      if PriceBelow(xs[|xs| - 1], xs[m]) then |xs| - 1 else m
  }

  /** The reference price field the comparison reads: `eur_foil` for the foil side, `eur` otherwise. */
  function Field(c: OldScryfallCard, foil: bool): Option<real>
  {
    if foil then c.prices.eurFoil else c.prices.eur
  }

  function Fields(refs: seq<OldScryfallCard>, foil: bool): (r: seq<Option<real>>)
    ensures |r| == |refs| && forall i :: 0 <= i < |refs| ==> r[i] == Field(refs[i], foil)
  {
    seq(|refs|, i requires 0 <= i < |refs| => Field(refs[i], foil))
  }

  /**
   * `get_cheapest_scryfall_card` / `get_cheapest_foil_scryfall_card`: the
   * lowest price of the field among the records; an empty list or a list
   * where no record has the field is an error.
   */
  function CheapestReference(refs: seq<OldScryfallCard>, foil: bool): (r: Result<real, CompareError>)
    ensures r.Ok? <==> exists i :: 0 <= i < |refs| && Field(refs[i], foil).Some?
    ensures r.Ok? ==> (exists i :: 0 <= i < |refs| && Field(refs[i], foil) == Some(r.value))
                      && forall i :: 0 <= i < |refs| && Field(refs[i], foil).Some? ==> r.value <= Field(refs[i], foil).value
    ensures refs == [] ==> r == Err(NoReferenceCards)
  {
    if refs == [] then Err(NoReferenceCards)
    else
      var fs := Fields(refs, foil);
      var i := MinByIndex(fs);
      match fs[i]
      case Some(p) => Ok(p)
      case None =>
        assert forall j :: 0 <= j < |refs| ==> Field(refs[j], foil).None? by {
          forall j | 0 <= j < |refs|
            ensures Field(refs[j], foil).None?
          {
            assert !PriceBelow(fs[j], fs[i]);
          }
        }
        Err(NoReferencePrice)
  }

  /** `min_by` over whole-krona prices: the first cheapest vendor card. */
  function CheapestVendorIndex(vs: seq<OldVendorCard>): (i: nat)
    requires |vs| > 0
    ensures i < |vs|
    ensures forall j :: 0 <= j < |vs| ==> vs[i].price <= vs[j].price
    ensures forall j :: 0 <= j < i ==> vs[i].price < vs[j].price
    decreases |vs|
  {
    if |vs| == 1 then 0
    else
      var m := CheapestVendorIndex(vs[..|vs| - 1]);
      if vs[|vs| - 1].price < vs[m].price then |vs| - 1 else m
  }

  /** `min_by` over the live list: its lowest price. */
  function CheapestLive(list: seq<PriceChecker.StocksPrice>): (r: real)
    requires |list| > 0
    ensures exists i :: 0 <= i < |list| && list[i].price == r
    ensures forall i :: 0 <= i < |list| ==> r <= list[i].price
    decreases |list|
  {
    if |list| == 1 then list[0].price
    else
      var m := CheapestLive(list[..|list| - 1]);
      var last := list[|list| - 1].price;
      if last < m then last else m
  }

  /** `f64::ceil` followed by `as i32` on an in-range value. */
  function Ceil(x: real): (n: int)
    ensures x <= n as real < x + 1.0
  {
    -((-x).Floor)
  }

  /** The EUR price the comparison uses: the cheapest reference price, else (only with the check flag off) the cheapest live price. */
  function McmEur(refs: seq<OldScryfallCard>, foil: bool, name: string, externalCheck: bool, live: LiveList): (r: Result<real, CompareError>)
    requires LiveListsNonEmpty(live)
    ensures CheapestReference(refs, foil).Ok? ==> r == CheapestReference(refs, foil)
    ensures CheapestReference(refs, foil).Err? && externalCheck ==> r == Err(ExternalCheckRefused)
    ensures CheapestReference(refs, foil).Err? && !externalCheck ==>
              (r.Ok? <==> live(name).Ok?) && (r.Ok? ==> r.value == CheapestLive(live(name).value))
  {
    match CheapestReference(refs, foil)
    case Ok(p) => Ok(p)
    case Err(_) =>
      if externalCheck then Err(ExternalCheckRefused)
      else match live(name)
        case Err(e) => Err(LiveFetchFailed(e))
        case Ok(list) => Ok(CheapestLive(list))
  }

  /** The reference lists of `mtg-rust`, keyed by the whole card-name value. */
  type ReferenceMap = map<OldCardName, seq<OldScryfallCard>>

  /**
   * `compare_card_price` (foil = false) and `compare_foil_card_price`
   * (foil = true) on one side of one name's vendor cards.
   */
  function ComparePrice(vs: seq<OldVendorCard>, refs: ReferenceMap, rate: real, foil: bool, externalCheck: bool, live: LiveList)
    : (r: Result<OldComparedCard, CompareError>)
    requires LiveListsNonEmpty(live)
    ensures vs == [] ==> r == Err(NoVendorCards)
    ensures vs != [] && vs[CheapestVendorIndex(vs)].name !in refs ==> r == Err(NoReferenceCards)
    ensures r.Ok? ==> var v := vs[CheapestVendorIndex(vs)];
                      && v.name in refs
                      && var eur := McmEur(refs[v.name], foil, v.name.almostRaw, externalCheck, live);
                      && eur.Ok?
                      && r.value.cheapestSetPriceMcmSek as real >= eur.value * rate
                      && (r.value.cheapestSetPriceMcmSek as real) < eur.value * rate + 1.0
                      && r.value.priceDifference == r.value.cheapestSetPriceMcmSek - v.price
                      && r.value.name == v.name.almostRaw && r.value.vendor == v.vendor
                      && r.value.foil == foil && r.value.vendorCards == vs
  {
    if vs == [] then Err(NoVendorCards)
    else
      var v := vs[CheapestVendorIndex(vs)];
      if v.name !in refs then Err(NoReferenceCards)
      else
        var eur := McmEur(refs[v.name], foil, v.name.almostRaw, externalCheck, live);
        if eur.Err? then Err(eur.error)
        else
          var sek := Ceil(eur.value * rate);
          Ok(OldComparedCard(v.name.almostRaw, foil, v.vendor, sek, sek - v.price, vs))
  }

  /**
   * With the check flag set and no reference price, the result is an error
   * without any live lookup: the flag acts the opposite way to its name.
   */
  lemma ExternalCheckInverted(vs: seq<OldVendorCard>, refs: ReferenceMap, rate: real, foil: bool, live: LiveList, live2: LiveList)
    requires LiveListsNonEmpty(live) && LiveListsNonEmpty(live2) && vs != []
    requires vs[CheapestVendorIndex(vs)].name in refs
    requires CheapestReference(refs[vs[CheapestVendorIndex(vs)].name], foil).Err?
    ensures ComparePrice(vs, refs, rate, foil, true, live) == Err(ExternalCheckRefused)
    ensures ComparePrice(vs, refs, rate, foil, true, live) == ComparePrice(vs, refs, rate, foil, true, live2)
  {
  }

  /** A positive difference means the market (rounded up) is dearer than the vendor: the vendor is cheaper. */
  lemma DifferenceSign(vs: seq<OldVendorCard>, refs: ReferenceMap, rate: real, foil: bool, externalCheck: bool, live: LiveList)
    requires LiveListsNonEmpty(live)
    requires ComparePrice(vs, refs, rate, foil, externalCheck, live).Ok?
    ensures var c := ComparePrice(vs, refs, rate, foil, externalCheck, live).value;
            forall i :: 0 <= i < |vs| ==> c.cheapestSetPriceMcmSek - vs[i].price <= c.priceDifference
  {
  }

  // ---------------------------------------------------------------- the loop over names

  /** The cards of `s` whose foil flag is `foil`, in order (one side of `partition`). */
  function Side(s: seq<OldVendorCard>, foil: bool): (r: seq<OldVendorCard>)
    ensures |r| <= |s|
    ensures forall i :: 0 <= i < |r| ==> r[i].foil == foil && r[i] in s
    decreases |s|
  {
    if s == [] then []
    else (if s[0].foil == foil then [s[0]] else []) + Side(s[1..], foil)
  }

  function OkOnly(r: Result<OldComparedCard, CompareError>): (s: seq<OldComparedCard>)
    ensures r.Ok? ==> s == [r.value]
    ensures r.Err? ==> s == []
  {
    match r
    case Ok(c) => [c]
    case Err(_) => []
  }

  /** What one name contributes: the foil comparison (if any foil cards), then the non-foil one, errors dropped. */
  function PerName(cards: seq<OldVendorCard>, refs: ReferenceMap, rate: real, externalCheck: bool, live: LiveList)
    : (r: seq<OldComparedCard>)
    requires LiveListsNonEmpty(live)
    ensures |r| <= 2
  {
    var f, n := Side(cards, true), Side(cards, false);
    (if |f| > 0 then OkOnly(ComparePrice(f, refs, rate, true, externalCheck, live)) else [])
    + (if |n| > 0 then OkOnly(ComparePrice(n, refs, rate, false, externalCheck, live)) else [])
  }

  /**
   * Each result of a name carries its whole side (the foil or the non-foil
   * cards, in their order), and when both sides succeed the foil result comes
   * first.
   */
  lemma PerNameSides(cards: seq<OldVendorCard>, refs: ReferenceMap, rate: real, externalCheck: bool, live: LiveList)
    requires LiveListsNonEmpty(live)
    ensures var r := PerName(cards, refs, rate, externalCheck, live);
            (forall i :: 0 <= i < |r| ==> r[i].vendorCards == Side(cards, r[i].foil) && r[i].vendorCards != [])
            && (|r| == 2 ==> r[0].foil && !r[1].foil)
  {
    var f, n := Side(cards, true), Side(cards, false);
    ComparedSide(f, refs, rate, true, externalCheck, live);
    ComparedSide(n, refs, rate, false, externalCheck, live);
    var a := if |f| > 0 then OkOnly(ComparePrice(f, refs, rate, true, externalCheck, live)) else [];
    var b := if |n| > 0 then OkOnly(ComparePrice(n, refs, rate, false, externalCheck, live)) else [];
    assert PerName(cards, refs, rate, externalCheck, live) == a + b;
  }

  /** A successful comparison is of the side it was given, with that side's foil flag. */
  lemma ComparedSide(vs: seq<OldVendorCard>, refs: ReferenceMap, rate: real, foil: bool, externalCheck: bool, live: LiveList)
    requires LiveListsNonEmpty(live)
    ensures var r := OkOnly(ComparePrice(vs, refs, rate, foil, externalCheck, live));
            |r| <= 1 && forall i :: 0 <= i < |r| ==> r[i].foil == foil && r[i].vendorCards == vs && vs != []
  {
  }

  type VendorMap = map<OldCardName, seq<OldVendorCard>>

  function CompareAllNames(order: seq<OldCardName>, m: VendorMap, refs: ReferenceMap, rate: real, externalCheck: bool, live: LiveList)
    : seq<OldComparedCard>
    requires LiveListsNonEmpty(live)
    requires forall i :: 0 <= i < |order| ==> order[i] in m
    decreases |order|
  {
    if order == [] then []
    else
      CompareAllNames(order[..|order| - 1], m, refs, rate, externalCheck, live)
      + PerName(m[order[|order| - 1]], refs, rate, externalCheck, live)
  }

  /** At most two results per name visited. */
  lemma {:induction false} AtMostTwoPerName(order: seq<OldCardName>, m: VendorMap, refs: ReferenceMap, rate: real, externalCheck: bool, live: LiveList)
    requires LiveListsNonEmpty(live)
    requires forall i :: 0 <= i < |order| ==> order[i] in m
    ensures |CompareAllNames(order, m, refs, rate, externalCheck, live)| <= 2 * |order|
    decreases |order|
  {
    if order != [] {
      AtMostTwoPerName(order[..|order| - 1], m, refs, rate, externalCheck, live);
    }
  }

  /** The body of the loop over names: the foil comparison is pushed before the non-foil one, each only when it succeeds. */
  method CompareName(cards: seq<OldVendorCard>, refs: ReferenceMap, rate: real, externalCheck: bool, live: LiveList)
    returns (results: seq<OldComparedCard>)
    requires LiveListsNonEmpty(live)
    ensures results == PerName(cards, refs, rate, externalCheck, live)
  {
    results := [];
    var foil, nonFoil := Side(cards, true), Side(cards, false);
    if |foil| > 0 {
      var result := ComparePrice(foil, refs, rate, true, externalCheck, live);
      if result.Ok? {
        results := results + [result.value];
      }
    }
    if |nonFoil| > 0 {
      var result := ComparePrice(nonFoil, refs, rate, false, externalCheck, live);
      if result.Ok? {
        results := results + [result.value];
      }
    }
  }

  /**
   * `compare_prices`: every name of the map, in the map's own order, adds its
   * foil result and then its non-foil result, when they succeed.
   */
  method ComparePrices(vendorCards: VendorMap, refs: ReferenceMap, fetchedRate: Option<real>, externalCheck: bool, live: LiveList)
    returns (compared: seq<OldComparedCard>, ghost order: seq<OldCardName>)
    requires LiveListsNonEmpty(live)
    ensures Distinct(order) && forall k :: k in order <==> k in vendorCards
    ensures compared == CompareAllNames(order, vendorCards, refs, RateOrFallback(fetchedRate), externalCheck, live)
    ensures |compared| <= 2 * |vendorCards|
  {
    var rate := RateOrFallback(fetchedRate);
    compared, order := [], [];
    var rest := vendorCards.Keys;
    while rest != {}
      invariant rest <= vendorCards.Keys
      invariant Distinct(order) && forall k :: k in order <==> k in vendorCards && k !in rest
      invariant compared == CompareAllNames(order, vendorCards, refs, rate, externalCheck, live)
      decreases rest
    {
      var name :| name in rest;
      ghost var beforeOrder := order;
      var results := CompareName(vendorCards[name], refs, rate, externalCheck, live);
      compared := compared + results;
      DistinctSnoc(order, name);
      order := order + [name];
      assert order[..|order| - 1] == beforeOrder && order[|order| - 1] == name;
      rest := rest - {name};
    }
    AtMostTwoPerName(order, vendorCards, refs, rate, externalCheck, live);
    DistinctKeysCount(order, vendorCards);
  }

  /** A duplicate-free listing of the keys of a map has exactly as many entries as the map. */
  lemma DistinctKeysCount(order: seq<OldCardName>, m: VendorMap)
    requires Distinct(order) && forall k :: k in order <==> k in m
    ensures |order| == |m|
  {
    var s := set k | k in order;
    assert s == m.Keys;
    DistinctCard(order);
  }

  lemma {:induction false} DistinctCard(order: seq<OldCardName>)
    requires Distinct(order)
    ensures |set k | k in order| == |order|
    decreases |order|
  {
    if order != [] {
      var init := order[..|order| - 1];
      DistinctInit(order);
      DistinctCard(init);
      var last := order[|order| - 1];
      assert (set k | k in order) == (set k | k in init) + {last};
      assert last !in (set k | k in init);
    }
  }
}
