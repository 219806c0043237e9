/**
 * `TradableCardsComparer` of `magic_card_scraper`: the user's own cards are
 * matched against a shop's stock. A personal card whose first matching shop
 * card still has room in stock becomes a `TradeableCard`; one whose match is
 * full is dropped; one without a match is a leftover. The leftovers are
 * looked up again in a second pass over freshly fetched shop cards.
 */
module TradeMatcher {
  import opened Wrappers
  import opened Lists
  import Money
  import CardNames
  import SetNames
  import opened Cards

  /** The shop's cards per name, keyed by the name's `cleaned` text (the hash key of `CardName`). */
  type VendorMap = map<string, seq<VendorCard>>

  /** The `find` condition: equal name, same foil state, equal set. */
  predicate SameCard(v: VendorCard, p: PersonalCard)
  {
    CardNames.Eq(v.name, p.name) && v.foil == p.foil && SetNames.Eq(v.setName, p.setName)
  }

  /** `vendor_cards.get(&p_card.name)`, an absent name giving no cards. */
  function BucketOf(m: VendorMap, p: PersonalCard): seq<VendorCard>
  {
    if p.name.cleaned in m then m[p.name.cleaned] else []
  }

  /** The first card of the name's bucket that is the same card. */
  function FindMatch(p: PersonalCard, m: VendorMap): Option<VendorCard>
  {
    FindElem(BucketOf(m, p), (v: VendorCard) => SameCard(v, p))
  }

  /** The match is absent exactly when no card of the bucket is the same card, and otherwise it is the first such card. */
  lemma FindMatchIsFirst(p: PersonalCard, m: VendorMap)
    ensures var r := FindMatch(p, m);
            && (r.None? <==> forall v :: v in BucketOf(m, p) ==> !SameCard(v, p))
            && (r.Some? ==> exists i :: 0 <= i < |BucketOf(m, p)| && BucketOf(m, p)[i] == r.value && SameCard(r.value, p)
                                        && forall j :: 0 <= j < i ==> !SameCard(BucketOf(m, p)[j], p))
  {
    FindElemIsFirst(BucketOf(m, p), (v: VendorCard) => SameCard(v, p));
  }

  /** What happens to one personal card. */
  datatype Outcome = Trade(card: TradeableCard) | StockFull | Unmatched

  /**
   * The `filter_map` closure: a match with room gives a tradeable card with the
   * shop's offer in SEK, the personal price as the market price, the personal
   * count to trade and the shop's free room as the requested amount.
   */
  function Decide(p: PersonalCard, m: VendorMap): Outcome
  {
    match FindMatch(p, m)
    case None => Unmatched
    case Some(v) =>
      if v.currentStock < v.maxStock then
        Trade(TradeableCard(v.name, v.setName, p.foil, v.prerelease, v.vendor,
                            Money.Price(v.tradeInPrice as real, Money.SEK), p.price, p.count,
                            v.maxStock - v.currentStock, v.imageUrl, p.color, p.rarity))
      else StockFull
  }

  /** The outcome of one personal card, case by case. */
  lemma DecideOutcome(p: PersonalCard, m: VendorMap)
    ensures var o := Decide(p, m);
            && (o.Unmatched? <==> FindMatch(p, m).None?)
            && (o.StockFull? <==> FindMatch(p, m).Some? && FindMatch(p, m).value.currentStock >= FindMatch(p, m).value.maxStock)
            && (o.Trade? ==> var v := FindMatch(p, m).value;
                         && v.currentStock < v.maxStock
                         && o.card.requestedByVendor == v.maxStock - v.currentStock && o.card.requestedByVendor > 0
                         && o.card.cardsToTrade == p.count
                         && o.card.tradeInPrice == Money.Price(v.tradeInPrice as real, Money.SEK)
                         && o.card.mcmPrice == p.price
                         && o.card.foil == p.foil && CardNames.Eq(o.card.name, p.name) && SetNames.Eq(o.card.setName, p.setName)
                         && o.card.tradeableVendor == v.vendor)
  {
  }

  /** The tradeable card one personal card contributes, if any. */
  function TradeOf(p: PersonalCard, m: VendorMap): seq<TradeableCard>
  {
    match Decide(p, m)
    case Trade(t) => [t]
    case _ => []
  }

  /** The personal card itself when it found no match. */
  function LeftoverOf(p: PersonalCard, m: VendorMap): seq<PersonalCard>
  {
    if FindMatch(p, m).None? then [p] else []
  }

  /** The tradeable cards, in personal-card order. */
  function Tradeable(ps: seq<PersonalCard>, m: VendorMap): (r: seq<TradeableCard>)
    ensures |r| <= |ps|
    decreases |ps|
  {
    if ps == [] then [] else Tradeable(ps[..|ps| - 1], m) + TradeOf(ps[|ps| - 1], m)
  }

  /** The leftover personal cards, unchanged and in order. */
  function Leftovers(ps: seq<PersonalCard>, m: VendorMap): (r: seq<PersonalCard>)
    ensures |r| <= |ps|
    decreases |ps|
  {
    if ps == [] then [] else Leftovers(ps[..|ps| - 1], m) + LeftoverOf(ps[|ps| - 1], m)
  }

  /** Every tradeable card is the outcome of some personal card. */
  lemma {:induction false} TradeableFromPersonal(ps: seq<PersonalCard>, m: VendorMap)
    ensures forall t :: t in Tradeable(ps, m) ==> exists p :: p in ps && Decide(p, m) == Trade(t)
    decreases |ps|
  {
    if ps != [] {
      var init, last := ps[..|ps| - 1], ps[|ps| - 1];
      TradeableFromPersonal(init, m);
      assert forall p :: p in init ==> p in ps;
    }
  }

  /** The leftovers are exactly the personal cards without a match. */
  lemma {:induction false} LeftoversUnmatched(ps: seq<PersonalCard>, m: VendorMap)
    ensures forall p :: p in Leftovers(ps, m) <==> p in ps && FindMatch(p, m).None?
    decreases |ps|
  {
    if ps != [] {
      var init, last := ps[..|ps| - 1], ps[|ps| - 1];
      LeftoversUnmatched(init, m);
      assert ps == init + [last];
    }
  }

  /** How many personal cards met a full match and appear in neither output. */
  function FullCount(ps: seq<PersonalCard>, m: VendorMap): nat
    decreases |ps|
  {
    if ps == [] then 0
    else FullCount(ps[..|ps| - 1], m) + (if Decide(ps[|ps| - 1], m).StockFull? then 1 else 0)
  }

  /** Every personal card lands in exactly one place: tradeable, leftover, or dropped as full. */
  lemma {:induction false} EveryCardAccounted(ps: seq<PersonalCard>, m: VendorMap)
    ensures |Tradeable(ps, m)| + |Leftovers(ps, m)| + FullCount(ps, m) == |ps|
    ensures |Tradeable(ps, m)| + |Leftovers(ps, m)| <= |ps|
    decreases |ps|
  {
    if ps != [] {
      EveryCardAccounted(ps[..|ps| - 1], m);
    }
  }

  /** The tradeable cards keep personal-card order: the output for a concatenation is the concatenated outputs. */
  lemma {:induction false} TradeableOrderKept(a: seq<PersonalCard>, b: seq<PersonalCard>, m: VendorMap)
    ensures Tradeable(a + b, m) == Tradeable(a, m) + Tradeable(b, m)
    decreases |b|
  {
    if b == [] {
      assert a + b == a;
    } else {
      var init, last := b[..|b| - 1], b[|b| - 1];
      assert (a + b)[..|a + b| - 1] == a + init;
      assert (a + b)[|a + b| - 1] == last;
      TradeableOrderKept(a, init, m);
      assert Tradeable(a + b, m) == Tradeable(a + init, m) + TradeOf(last, m);
      assert Tradeable(b, m) == Tradeable(init, m) + TradeOf(last, m);
    }
  }

  /** The leftovers keep personal-card order in the same way. */
  lemma {:induction false} LeftoversOrderKept(a: seq<PersonalCard>, b: seq<PersonalCard>, m: VendorMap)
    ensures Leftovers(a + b, m) == Leftovers(a, m) + Leftovers(b, m)
    decreases |b|
  {
    if b == [] {
      assert a + b == a;
    } else {
      var init, last := b[..|b| - 1], b[|b| - 1];
      assert (a + b)[..|a + b| - 1] == a + init;
      assert (a + b)[|a + b| - 1] == last;
      LeftoversOrderKept(a, init, m);
      assert Leftovers(a + b, m) == Leftovers(a + init, m) + LeftoverOf(last, m);
      assert Leftovers(b, m) == Leftovers(init, m) + LeftoverOf(last, m);
    }
  }

  /** A full match ahead of a free one hides it: the card is dropped, not traded. */
  lemma FirstMatchDecides(p: PersonalCard, m: VendorMap, full: VendorCard, free: VendorCard)
    requires p.name.cleaned in m && m[p.name.cleaned] == [full, free]
    requires SameCard(full, p) && SameCard(free, p)
    requires full.currentStock >= full.maxStock && free.currentStock < free.maxStock
    ensures Decide(p, m) == StockFull
  {
    assert FindElem(m[p.name.cleaned], (v: VendorCard) => SameCard(v, p)) == Some(full);
  }

  /** One more personal card read: both outputs so far followed by that card's part. */
  lemma OutputsPrefix(ps: seq<PersonalCard>, m: VendorMap, i: nat)
    requires i < |ps|
    ensures Tradeable(ps[..i + 1], m) == Tradeable(ps[..i], m) + TradeOf(ps[i], m)
    ensures Leftovers(ps[..i + 1], m) == Leftovers(ps[..i], m) + LeftoverOf(ps[i], m)
  {
    assert ps[..i + 1][..i] == ps[..i];
  }

  /** `get_tradable_and_leftover_cards`. */
  method GetTradableAndLeftoverCards(ps: seq<PersonalCard>, m: VendorMap)
    returns (tradeable: seq<TradeableCard>, leftover: seq<PersonalCard>)
    ensures tradeable == Tradeable(ps, m) && leftover == Leftovers(ps, m)
  {
    tradeable, leftover := [], [];
    for i := 0 to |ps|
      invariant tradeable == Tradeable(ps[..i], m) && leftover == Leftovers(ps[..i], m)
    {
      var p := ps[i];
      OutputsPrefix(ps, m, i);
      match Decide(p, m) {
        case Trade(t) =>
          tradeable := tradeable + [t];
        case StockFull =>
        case Unmatched =>
          leftover := leftover + [p];
      }
    }
    assert ps[..|ps|] == ps;
  }

  /**
   * `get_tradable_cards`: the first pass against the shop map, then a second
   * pass of the leftovers against the shop cards fetched by their names
   * (`fetched`, the pages read for every leftover in turn), grouped by name.
   * The second pass's tradeable cards follow the first pass's; its leftovers
   * are dropped.
   */
  method GetTradableCards(ps: seq<PersonalCard>, m: VendorMap, fetched: seq<VendorCard>)
    returns (tradeable: seq<TradeableCard>)
    ensures tradeable == Tradeable(ps, m) + Tradeable(Leftovers(ps, m), Grouped(fetched, NameKey))
    ensures |tradeable| <= |ps|
  {
    var first, leftover := GetTradableAndLeftoverCards(ps, m);
    var grouped := GroupBy(fetched, NameKey);
    var more, _ := GetTradableAndLeftoverCards(leftover, grouped);
    tradeable := first + more;
    EveryCardAccounted(ps, m);
  }
}
