/**
 * The first trade matcher of `mtg-rust` (`delver_lense/delver_lense_card.rs`).
 * The shop's cards are a plain list, and the stock condition is part of the
 * search: a personal card trades with the first shop card that is the same
 * card and still has room, so a full card earlier in the list does not hide
 * a later one with room. There are no leftovers. The export rows have five
 * text fields, and only the exact text "Foil" marks a foil card.
 */
module EarlyTrade {
  import opened Wrappers
  import opened Text
  import opened Lists
  import Money
  import SetNames
  import Cards
  import opened LegacyCards
  import opened LegacyMoney
  import opened DelverText

  /** One row of this export format. */
  datatype EarlyRow = EarlyRow(name: string, foil: string, edition: string, price: string, quantity: string)

  /** `PersonalCard` as this file builds it: the price is a plain number, the count 8-bit. */
  datatype EarlyPersonalCard = EarlyPersonalCard(
    name: OldCardName,
    setName: SetNames.SetName,
    foil: bool,
    price: real,
    count: int)

  /** `TradeableCard` of this file. */
  datatype EarlyTradeableCard = EarlyTradeableCard(
    name: OldCardName,
    setName: SetNames.SetName,
    foil: bool,
    tradeableVendor: Cards.Vendor,
    tradeInPrice: LegacyPrice,
    mcmPrice: LegacyPrice,
    cardsToTrade: int,
    requestedByVendor: int)

  /** The `find` condition: derived equality on name and set, the same foil state, and room in stock. */
  predicate Qualifies(v: OldVendorCard, p: EarlyPersonalCard)
  {
    v.name == p.name && v.foil == p.foil && v.setName == p.setName && v.currentStock < v.maxStock
  }

  /** The first shop card that qualifies. */
  function FindQualifying(p: EarlyPersonalCard, vs: seq<OldVendorCard>): Option<OldVendorCard>
  {
    match FindFirst(vs, (v: OldVendorCard) => Qualifies(v, p))
    case None => None
    case Some(i) => Some(vs[i])
  }

  /** The search result is absent exactly when no shop card qualifies, and otherwise it is the first that does. */
  lemma FindQualifyingIsFirst(p: EarlyPersonalCard, vs: seq<OldVendorCard>)
    ensures var r := FindQualifying(p, vs);
            && (r.None? <==> forall i :: 0 <= i < |vs| ==> !Qualifies(vs[i], p))
            && (r.Some? ==> exists i :: 0 <= i < |vs| && vs[i] == r.value && Qualifies(r.value, p)
                                        && forall j :: 0 <= j < i ==> !Qualifies(vs[j], p))
  {
  }

  /** The tradeable card built from a personal card and the shop card it trades with. */
  function Build(p: EarlyPersonalCard, v: OldVendorCard): EarlyTradeableCard
  {
    EarlyTradeableCard(v.name, v.setName, p.foil, v.vendor,
                       LegacyPrice(v.tradeInPrice as real, Money.SEK), LegacyPrice(p.price, Money.SEK),
                       p.count, v.maxStock - v.currentStock)
  }

  /**
   * The `filter_map` closure: a personal card with a qualifying shop card gives
   * one tradeable card, asking for the shop's free room, with both prices
   * tagged SEK; any other personal card gives nothing.
   */
  function TradeOf(p: EarlyPersonalCard, vs: seq<OldVendorCard>): (r: seq<EarlyTradeableCard>)
    ensures |r| <= 1
    ensures r == [] <==> FindQualifying(p, vs).None?
    ensures r != [] ==> var v := FindQualifying(p, vs).value;
                        && Qualifies(v, p)
                        && r[0].requestedByVendor == v.maxStock - v.currentStock && r[0].requestedByVendor > 0
                        && r[0].cardsToTrade == p.count
                        && r[0].tradeInPrice == LegacyPrice(v.tradeInPrice as real, Money.SEK)
                        && r[0].mcmPrice == LegacyPrice(p.price, Money.SEK)
                        && r[0].name == p.name && r[0].setName == p.setName && r[0].foil == p.foil
  {
    FindQualifyingIsFirst(p, vs);
    match FindQualifying(p, vs)
    case None => []
    case Some(v) => [Build(p, v)]
  }

  /** `get_tradable_cards`: the tradeable cards, in personal-card order. */
  function GetTradableCards(ps: seq<EarlyPersonalCard>, vs: seq<OldVendorCard>): seq<EarlyTradeableCard>
    decreases |ps|
  {
    if ps == [] then [] else GetTradableCards(ps[..|ps| - 1], vs) + TradeOf(ps[|ps| - 1], vs)
  }

  /** The personal cards that find a qualifying shop card, in order. */
  function WithQualifying(ps: seq<EarlyPersonalCard>, vs: seq<OldVendorCard>): seq<EarlyPersonalCard>
    decreases |ps|
  {
    if ps == [] then []
    else WithQualifying(ps[..|ps| - 1], vs) + (if FindQualifying(ps[|ps| - 1], vs).Some? then [ps[|ps| - 1]] else [])
  }

  /** One tradeable card per personal card that finds a qualifying shop card, no more and no fewer. */
  lemma {:induction false} OnePerQualifyingCard(ps: seq<EarlyPersonalCard>, vs: seq<OldVendorCard>)
    ensures |GetTradableCards(ps, vs)| == |WithQualifying(ps, vs)| <= |ps|
    decreases |ps|
  {
    if ps != [] {
      OnePerQualifyingCard(ps[..|ps| - 1], vs);
    }
  }

  /** The output keeps personal-card order: the cards for a concatenation are the concatenated cards. */
  lemma {:induction false} TradableOrderKept(a: seq<EarlyPersonalCard>, b: seq<EarlyPersonalCard>, vs: seq<OldVendorCard>)
    ensures GetTradableCards(a + b, vs) == GetTradableCards(a, vs) + GetTradableCards(b, vs)
    decreases |b|
  {
    if b == [] {
      assert a + b == a;
    } else {
      var init, last := b[..|b| - 1], b[|b| - 1];
      assert (a + b)[..|a + b| - 1] == a + init && (a + b)[|a + b| - 1] == last;
      TradableOrderKept(a, init, vs);
    }
  }

  /** A full shop card ahead of one with room does not hide it: the card still trades, with the later shop card. */
  lemma FullEarlierDoesNotHide(p: EarlyPersonalCard, full: OldVendorCard, free: OldVendorCard)
    requires full.name == p.name && full.foil == p.foil && full.setName == p.setName
    requires full.currentStock >= full.maxStock
    requires Qualifies(free, p)
    ensures GetTradableCards([p], [full, free]) == [Build(p, free)]
  {
    assert FindFirst([full, free], (v: OldVendorCard) => Qualifies(v, p)) == Some(1);
    assert [p][..0] == [];
  }

  // ---------------------------------------------------------------- conversion of the export rows

  /** The foil field: only the exact text "Foil" marks a foil card. */
  function ConvertFoil(s: string): (r: bool)
    ensures r <==> s == "Foil"
  {
    match s
    case "Foil" => true
    case "" => false
    case _ => false
  }

  /** The conditions under which none of the row's `unwrap`s panics. */
  predicate RowConvertible(row: EarlyRow)
  {
    && LegacyCards.New(row.name).Ok?
    && SetNames.New(row.edition).Ok?
    && ConvertPriceToNumber(row.price).Some?
    && ParseI8(row.quantity).Some?
  }

  /** The `map` closure of `convert_raw_card_to_personal_card`. */
  function ConvertRow(row: EarlyRow): (p: EarlyPersonalCard)
    requires RowConvertible(row)
    ensures p.foil <==> row.foil == "Foil"
    ensures p.price == ConvertPriceToNumber(row.price).value
    ensures p.count == ParseI8(row.quantity).value && I8_MIN <= p.count <= I8_MAX
    ensures p.name == LegacyCards.New(row.name).value && p.setName == SetNames.New(row.edition).value
  {
    EarlyPersonalCard(
      LegacyCards.New(row.name).value,
      SetNames.New(row.edition).value,
      ConvertFoil(row.foil),
      ConvertPriceToNumber(row.price).value,
      ParseI8(row.quantity).value)
  }

  /** A foil field other than "Foil", such as the lower-case "foil", gives a non-foil card. */
  lemma LowerCaseFoilIsNotFoil(row: EarlyRow)
    requires RowConvertible(row) && row.foil == "foil"
    ensures !ConvertRow(row).foil
  {
    assert row.foil[0] != "Foil"[0];
  }

  /** `convert_raw_card_to_personal_card`: one personal card per row. */
  function ConvertRawCardToPersonalCard(rows: seq<EarlyRow>): (r: seq<EarlyPersonalCard>)
    requires forall i :: 0 <= i < |rows| ==> RowConvertible(rows[i])
    ensures |r| == |rows|
  {
    MapAll(rows, ConvertRow)
  }

  /** The card at each position is the conversion of the row at that position. */
  lemma RowConverted(rows: seq<EarlyRow>, i: nat)
    requires forall i :: 0 <= i < |rows| ==> RowConvertible(rows[i])
    requires i < |rows|
    ensures ConvertRawCardToPersonalCard(rows)[i] == ConvertRow(rows[i])
  {
  }
}
