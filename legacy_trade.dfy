/**
 * The trade matcher of `mtg-rust` (`tradable_cars/delver_lense_card.rs`): the
 * same first-match, stock-check, dropped-if-full and leftover-if-unmatched
 * rule as the newest matcher, over the older records. Names and sets compare
 * with derived equality, so the shop map is keyed by the whole `CardName`
 * value; the market price is a plain number, tagged EUR in the result.
 */
module LegacyTrade {
  import opened Wrappers
  import opened Text
  import opened Lists
  import Money
  import SetNames
  import Cards
  import opened LegacyCards
  import opened LegacyMoney
  import opened DelverText

  /** `PersonalCard` as this file builds it. */
  datatype OldPersonalCard = OldPersonalCard(
    name: OldCardName,
    setName: SetNames.SetName,
    foil: bool,
    price: real,
    count: int,
    color: string,
    rarity: Cards.Rarity)

  /** `TradeableCard` of this file. */
  datatype OldTradeableCard = OldTradeableCard(
    name: OldCardName,
    setName: SetNames.SetName,
    foil: bool,
    tradeableVendor: Cards.Vendor,
    tradeInPrice: LegacyPrice,
    mcmPrice: LegacyPrice,
    cardsToTrade: int,
    requestedByVendor: int,
    imageUrl: string,
    color: string,
    rarity: Cards.Rarity)

  /** One row of the older export format (the same seven text fields). */
  type Row = Cards.DelverLensRow

  type VendorMap = map<OldCardName, seq<OldVendorCard>>

  /** The `find` condition, with derived equality on name and set. */
  predicate SameCard(v: OldVendorCard, p: OldPersonalCard)
  {
    v.name == p.name && v.foil == p.foil && v.setName == p.setName
  }

  function BucketOf(m: VendorMap, p: OldPersonalCard): seq<OldVendorCard>
  {
    if p.name in m then m[p.name] else []
  }

  /** The first card of the name's bucket that is the same card. */
  function FindMatch(p: OldPersonalCard, m: VendorMap): Option<OldVendorCard>
  {
    var bucket := BucketOf(m, p);
    match FindFirst(bucket, (v: OldVendorCard) => SameCard(v, p))
    case None => None
    case Some(i) => Some(bucket[i])
  }

  /** The match is absent exactly when no card of the bucket is the same card, and otherwise it is the first such card. */
  lemma FindMatchIsFirst(p: OldPersonalCard, m: VendorMap)
    ensures var r := FindMatch(p, m);
            && (r.None? <==> forall v :: v in BucketOf(m, p) ==> !SameCard(v, p))
            && (r.Some? ==> exists i :: 0 <= i < |BucketOf(m, p)| && BucketOf(m, p)[i] == r.value && SameCard(r.value, p)
                                        && forall j :: 0 <= j < i ==> !SameCard(BucketOf(m, p)[j], p))
  {
    var bucket := BucketOf(m, p);
    var found := FindFirst(bucket, (v: OldVendorCard) => SameCard(v, p));
    if found.None? {
      forall v | v in bucket ensures !SameCard(v, p) {
        var i :| 0 <= i < |bucket| && bucket[i] == v;
      }
    }
  }

  datatype Outcome = Trade(card: OldTradeableCard) | StockFull | Unmatched

  /**
   * One personal card: a match with room gives a tradeable card whose offer is
   * tagged SEK and whose market price is the personal price tagged EUR.
   */
  function Decide(p: OldPersonalCard, m: VendorMap): Outcome
  {
    match FindMatch(p, m)
    case None => Unmatched
    case Some(v) =>
      if v.currentStock < v.maxStock then
        Trade(OldTradeableCard(v.name, v.setName, p.foil, v.vendor,
                               LegacyPrice(v.tradeInPrice as real, Money.SEK), LegacyPrice(p.price, Money.EUR),
                               p.count, v.maxStock - v.currentStock, v.imageUrl, p.color, p.rarity))
      else StockFull
  }

  /** The outcome of one personal card, case by case. */
  lemma DecideOutcome(p: OldPersonalCard, m: VendorMap)
    ensures var o := Decide(p, m);
            && (o.Unmatched? <==> FindMatch(p, m).None?)
            && (o.StockFull? <==> FindMatch(p, m).Some? && FindMatch(p, m).value.currentStock >= FindMatch(p, m).value.maxStock)
            && (o.Trade? ==> var v := FindMatch(p, m).value;
                         && v.currentStock < v.maxStock
                         && o.card.requestedByVendor == v.maxStock - v.currentStock && o.card.requestedByVendor > 0
                         && o.card.cardsToTrade == p.count
                         && o.card.tradeInPrice == LegacyPrice(v.tradeInPrice as real, Money.SEK)
                         && o.card.mcmPrice == LegacyPrice(p.price, Money.EUR)
                         && o.card.name == p.name && o.card.setName == p.setName && o.card.foil == p.foil)
  {
  }

  function TradeOf(p: OldPersonalCard, m: VendorMap): seq<OldTradeableCard>
  {
    match Decide(p, m)
    case Trade(t) => [t]
    case _ => []
  }

  function LeftoverOf(p: OldPersonalCard, m: VendorMap): seq<OldPersonalCard>
  {
    if FindMatch(p, m).None? then [p] else []
  }

  function Tradeable(ps: seq<OldPersonalCard>, m: VendorMap): (r: seq<OldTradeableCard>)
    ensures |r| <= |ps|
    decreases |ps|
  {
    if ps == [] then [] else Tradeable(ps[..|ps| - 1], m) + TradeOf(ps[|ps| - 1], m)
  }

  function Leftovers(ps: seq<OldPersonalCard>, m: VendorMap): (r: seq<OldPersonalCard>)
    ensures |r| <= |ps|
    decreases |ps|
  {
    if ps == [] then [] else Leftovers(ps[..|ps| - 1], m) + LeftoverOf(ps[|ps| - 1], m)
  }

  /** The leftovers are exactly the personal cards without a match. */
  lemma {:induction false} LeftoversUnmatched(ps: seq<OldPersonalCard>, m: VendorMap)
    ensures forall p :: p in Leftovers(ps, m) <==> p in ps && FindMatch(p, m).None?
    decreases |ps|
  {
    if ps != [] {
      var init, last := ps[..|ps| - 1], ps[|ps| - 1];
      LeftoversUnmatched(init, m);
      assert ps == init + [last];
    }
  }

  /** No personal card is counted twice: tradeable and leftover cards together are at most the personal cards. */
  lemma {:induction false} OutputsBounded(ps: seq<OldPersonalCard>, m: VendorMap)
    ensures |Tradeable(ps, m)| + |Leftovers(ps, m)| <= |ps|
    decreases |ps|
  {
    if ps != [] {
      OutputsBounded(ps[..|ps| - 1], m);
    }
  }

  /** The key is the whole name: a shop card whose name differs only in its raw text is not found. */
  lemma WholeNameIsTheKey(p: OldPersonalCard, v: OldVendorCard)
    requires v.name.cleaned == p.name.cleaned && v.name != p.name
    requires v.foil == p.foil && v.setName == p.setName && v.currentStock < v.maxStock
    ensures Decide(p, map[v.name := [v]]) == Unmatched
  {
  }

  /** One more personal card adds its trade and its leftover at the end. */
  lemma StepOutputs(ps: seq<OldPersonalCard>, m: VendorMap, i: nat)
    requires i < |ps|
    ensures Tradeable(ps[..i + 1], m) == Tradeable(ps[..i], m) + TradeOf(ps[i], m)
    ensures Leftovers(ps[..i + 1], m) == Leftovers(ps[..i], m) + LeftoverOf(ps[i], m)
  {
    assert ps[..i + 1][..i] == ps[..i] && ps[..i + 1][i] == ps[i];
  }

  /** `get_tradable_and_leftover_cards`. */
  method GetTradableAndLeftoverCards(ps: seq<OldPersonalCard>, m: VendorMap)
    returns (tradeable: seq<OldTradeableCard>, leftover: seq<OldPersonalCard>)
    ensures tradeable == Tradeable(ps, m) && leftover == Leftovers(ps, m)
  {
    tradeable, leftover := [], [];
    for i := 0 to |ps|
      invariant tradeable == Tradeable(ps[..i], m) && leftover == Leftovers(ps[..i], m)
    {
      var p := ps[i];
      StepOutputs(ps, m, i);
      match Decide(p, m) {
        case Trade(t) =>
          tradeable := tradeable + [t];
        case StockFull =>
        case Unmatched =>
          leftover := leftover + [p];
      }
    }
    assert ps[..|ps|] == ps;
  }
}
